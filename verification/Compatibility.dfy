/** What may change between two schemas, and why it protects every client compiled along the way. */
module Compatibility {
  import opened Prelude
  import opened Annotations

  /** Where a method is declared, and its behaviour. */
  datatype Method = Method(file: string, behaviour: Behaviour)

  /** Methods by name; the last one of a name wins. */
  function Index(ds: seq<Declared>): map<string, Method> {
    if ds == [] then map[]
    else Index(ds[..|ds| - 1])[ds[|ds| - 1].name := Method(ds[|ds| - 1].file, ds[|ds| - 1].rpc.behaviour)]
  }

  function IndexMethods(fs: seq<File>): map<string, Method> {
    Index(MethodsOf(fs))
  }

  lemma IndexOneMore(ds: seq<Declared>, d: Declared)
    ensures Index(ds + [d]) == Index(ds)[d.name := Method(d.file, d.rpc.behaviour)]
  {
    assert (ds + [d])[..|ds|] == ds;
  }

  /** One service's methods written into the index, after those declared before it. */
  method FillService(into: map<string, Method>, file: File, s: Service, ghost before: seq<Declared>)
    returns (methods: map<string, Method>)
    requires into == Index(before)
    ensures methods == Index(before + MethodsOfService(file, s))
  {
    hide Index;
    methods := into;
    ghost var found := MethodsOfService(file, s);
    assert before + found[..0] == before;
    for k := 0 to |s.methods|
      invariant methods == Index(before + found[..k])
    {
      var name := Qualify(Qualify(file.package, s.name), s.methods[k].name);
      IndexOneMore(before + found[..k], found[k]);
      assert before + found[..k + 1] == before + found[..k] + [found[k]];
      methods := methods[name := Method(file.name, s.methods[k].behaviour)];
    }
    assert found[..|s.methods|] == found;
  }

  /** indexMethods: the loops over files, services and methods. */
  method FillMethods(fs: seq<File>) returns (methods: map<string, Method>)
    ensures methods == IndexMethods(fs)
  {
    hide MethodsOfService, Index;
    methods := map[];
    assert Index([]) == map[] by { IndexOfNothing(); }
    for i := 0 to |fs|
      invariant methods == Index(MethodsOf(fs[..i]))
    {
      ghost var before, ss := MethodsOf(fs[..i]), fs[i].services;
      assert before + [] == before;
      for j := 0 to |fs[i].services|
        invariant methods == Index(before + MethodsOfServices(fs[i], ss[..j]))
      {
        methods := FillService(methods, fs[i], fs[i].services[j], before + MethodsOfServices(fs[i], ss[..j]));
        assert ss[..j + 1][..j] == ss[..j];
        assert before + MethodsOfServices(fs[i], ss[..j]) + MethodsOfService(fs[i], ss[j])
            == before + MethodsOfServices(fs[i], ss[..j + 1]);
      }
      assert ss[..|ss|] == ss && fs[..i + 1][..i] == fs[..i];
    }
    assert fs[..|fs|] == fs;
  }

  lemma IndexOfNothing()
    ensures Index([]) == map[]
  {
  }

  datatype Weakening = UnknownBefore | UnknownAfter | NoLongerSafe | NaturalToKeyed | NaturalToUnsafe | KeyedToUnsafe | KeyMoved

  function Weakened(was: int, now: int): Option<Weakening> {
    if was == NATURAL then
      if now == KEYED then Some(NaturalToKeyed) else if now == UNSAFE then Some(NaturalToUnsafe) else None
    else if was == KEYED then
      if now == UNSAFE then Some(KeyedToUnsafe) else None
    else None
  }

  method CompareBehaviour(was: Behaviour, now: Behaviour) returns (reasons: seq<Weakening>)
    ensures Distinct(reasons)
    ensures forall r :: r in reasons <==> Weakens(was, now, r)
    ensures reasons == [] <==> Kept(was, now)
  {
    KeptIffNothingWeakens(was, now);
    reasons := [];
    if !Known(was.idempotency) { reasons := reasons + [UnknownBefore]; }
    if !Known(now.idempotency) { reasons := reasons + [UnknownAfter]; }
    if |reasons| > 0 {
      assert reasons[0] in reasons;
      return;
    }
    if was.safe && !now.safe {
      reasons := reasons + [NoLongerSafe];
    }
    var weaker := Weakened(was.idempotency, now.idempotency);
    if weaker.Some? {
      reasons := reasons + [weaker.value];
    }
    if was.idempotency == KEYED && now.idempotency == KEYED && was.keyField != now.keyField {
      reasons := reasons + [KeyMoved];
    }
    if reasons != [] { assert reasons[0] in reasons; }
  }

  /** What each reason means. Between values this build does not know no transition is judged. */
  predicate Weakens(was: Behaviour, now: Behaviour, r: Weakening) {
    var known := Known(was.idempotency) && Known(now.idempotency);
    match r
    case UnknownBefore => !Known(was.idempotency)
    case UnknownAfter => !Known(now.idempotency)
    case NoLongerSafe => known && was.safe && !now.safe
    case NaturalToKeyed => was.idempotency == NATURAL && now.idempotency == KEYED
    case NaturalToUnsafe => was.idempotency == NATURAL && now.idempotency == UNSAFE
    case KeyedToUnsafe => was.idempotency == KEYED && now.idempotency == UNSAFE
    case KeyMoved => was.idempotency == KEYED && now.idempotency == KEYED && was.keyField != now.keyField
  }

  lemma KeptIffNothingWeakens(was: Behaviour, now: Behaviour)
    ensures Kept(was, now) <==> forall r :: !Weakens(was, now, r)
  {
    if forall r :: !Weakens(was, now, r) {
      assert !Weakens(was, now, UnknownBefore) && !Weakens(was, now, UnknownAfter) && !Weakens(was, now, NoLongerSafe);
      assert !Weakens(was, now, NaturalToKeyed) && !Weakens(was, now, NaturalToUnsafe);
      assert !Weakens(was, now, KeyedToUnsafe) && !Weakens(was, now, KeyMoved);
    }
  }

  /** The pairwise rule: none of the forbidden changes. */
  predicate Kept(was: Behaviour, now: Behaviour) {
    && Known(was.idempotency) && Known(now.idempotency)
    && (was.safe ==> now.safe)
    && (was.idempotency == NATURAL ==> now.idempotency == NATURAL || now.idempotency == UNSPECIFIED)
    && (was.idempotency == KEYED ==> now.idempotency != UNSAFE)
    && (was.idempotency == KEYED && now.idempotency == KEYED ==> was.keyField == now.keyField)
  }

  predicate Compatible(before: seq<File>, after: seq<File>) {
    forall name | name in IndexMethods(before) && name in IndexMethods(after) ::
      Kept(IndexMethods(before)[name].behaviour, IndexMethods(after)[name].behaviour)
  }

  /** A weakening of a method, in the file that now declares it. */
  datatype Finding = Finding(file: string, name: string, reason: Weakening)

  datatype CompatReport = CompatReport(methodsBefore: nat, methodsCompared: nat, violations: seq<Finding>)

  /** The finding is due: its method is in both schemas, now in that file, and weakened for that reason. */
  predicate Due(v: Finding, previous: map<string, Method>, now: map<string, Method>) {
    && v.name in previous && v.name in now && v.file == now[v.name].file
    && Weakens(previous[v.name].behaviour, now[v.name].behaviour, v.reason)
  }

  /** The violations are exactly the weakenings of the methods in `names`, each once. */
  ghost predicate Exact(violations: seq<Finding>, names: set<string>, previous: map<string, Method>, now: map<string, Method>) {
    forall v: Finding :: multiset(violations)[v] == if v.name in names && Due(v, previous, now) then 1 else 0
  }

  function Labelled(file: string, name: string, reasons: seq<Weakening>): seq<Finding> {
    seq(|reasons|, k requires 0 <= k < |reasons| => Finding(file, name, reasons[k]))
  }

  lemma {:induction false} LabelledCounts(file: string, name: string, reasons: seq<Weakening>, v: Finding)
    requires Distinct(reasons)
    ensures multiset(Labelled(file, name, reasons))[v] == if v.file == file && v.name == name && v.reason in reasons then 1 else 0
  {
    if reasons != [] {
      var init, last := reasons[..|reasons| - 1], reasons[|reasons| - 1];
      assert reasons == init + [last] && last !in init;
      LabelledCounts(file, name, init, v);
      assert Labelled(file, name, reasons) == Labelled(file, name, init) + [Finding(file, name, last)];
    }
  }

  lemma ExactGrows(violations: seq<Finding>, reasons: seq<Weakening>, name: string, names: set<string>,
                   previous: map<string, Method>, now: map<string, Method>)
    requires name in previous && name in now && name !in names
    requires Exact(violations, names, previous, now)
    requires Distinct(reasons)
    requires forall r :: r in reasons <==> Weakens(previous[name].behaviour, now[name].behaviour, r)
    ensures Exact(violations + Labelled(now[name].file, name, reasons), names + {name}, previous, now)
  {
    hide Weakens, Labelled, Distinct;
    var found := Labelled(now[name].file, name, reasons);
    forall v: Finding
      ensures multiset(violations + found)[v] == if v.name in names + {name} && Due(v, previous, now) then 1 else 0
    {
      LabelledCounts(now[name].file, name, reasons, v);
    }
  }

  /** The names found in both schemas, once all but `todo` have been looked at. */
  ghost function Matched(was: set<string>, now: set<string>, todo: set<string>): set<string> {
    was * (now - todo)
  }

  /** One name of `todo` is taken: it joins the names found in both, if it was there before. */
  lemma MatchedGrows(was: set<string>, now: set<string>, todo: set<string>, name: string)
    requires name in todo && todo <= now
    ensures Matched(was, now, todo - {name}) == Matched(was, now, todo) + (if name in was then {name} else {})
    ensures name in was ==> |Matched(was, now, todo - {name})| == |Matched(was, now, todo)| + 1
    ensures name !in Matched(was, now, todo)
  {
    assert Matched(was, now, todo - {name}) == Matched(was, now, todo) + (if name in was then {name} else {});
  }

  lemma MatchedFromEnd(was: set<string>, now: set<string>)
    ensures Matched(was, now, now) == {} && Matched(was, now, {}) == was * now
  {
  }

  /** The loop over the new schema's index, in whatever order. */
  method CompareIndexes(previous: map<string, Method>, now: map<string, Method>) returns (report: CompatReport)
    ensures report.methodsBefore == |previous|
    ensures report.methodsCompared == |previous.Keys * now.Keys|
    ensures Exact(report.violations, previous.Keys * now.Keys, previous, now)
  {
    hide Kept, Exact, Matched, Labelled, Distinct;
    report := CompatReport(|previous|, 0, []);
    var todo := now.Keys;
    ghost var matched: set<string> := {};
    ExactOfNothing(previous, now);
    MatchedFromEnd(previous.Keys, now.Keys);
    while todo != {}
      invariant todo <= now.Keys && matched !! todo
      invariant matched == Matched(previous.Keys, now.Keys, todo)
      invariant report.methodsBefore == |previous| && report.methodsCompared == |matched|
      invariant Exact(report.violations, matched, previous, now)
      decreases todo
    {
      var name :| name in todo;
      MatchedGrows(previous.Keys, now.Keys, todo, name);
      todo := todo - {name};
      if name in previous {
        var reasons := CompareBehaviour(previous[name].behaviour, now[name].behaviour);
        ExactGrows(report.violations, reasons, name, matched, previous, now);
        report := CompatReport(report.methodsBefore, report.methodsCompared + 1,
                               report.violations + Labelled(now[name].file, name, reasons));
        matched := matched + {name};
      }
    }
  }

  /** Compares every method both schemas declare, once, and reports exactly their weakenings, each once. */
  method CheckCompatibility(before: seq<File>, after: seq<File>) returns (report: CompatReport)
    ensures report.methodsBefore == |IndexMethods(before)|
    ensures report.methodsCompared == |IndexMethods(before).Keys * IndexMethods(after).Keys|
    ensures Exact(report.violations, IndexMethods(before).Keys * IndexMethods(after).Keys, IndexMethods(before), IndexMethods(after))
    ensures report.violations == [] <==> Compatible(before, after)
  {
    hide Kept, IndexMethods, Exact;
    var previous := FillMethods(before);
    var now := FillMethods(after);
    report := CompareIndexes(previous, now);
    ExactMeansCompatible(report.violations, previous.Keys * now.Keys, previous, now);
  }

  lemma ExactOfNothing(previous: map<string, Method>, now: map<string, Method>)
    ensures Exact([], {}, previous, now)
  {
  }

  lemma ExactMeansCompatible(violations: seq<Finding>, names: set<string>, previous: map<string, Method>, now: map<string, Method>)
    requires names <= previous.Keys && names <= now.Keys && Exact(violations, names, previous, now)
    ensures violations == [] <==> forall name | name in names :: Kept(previous[name].behaviour, now[name].behaviour)
  {
    hide Kept, Weakens;
    forall name | name in names
      ensures Kept(previous[name].behaviour, now[name].behaviour) <==>
              forall r :: !Weakens(previous[name].behaviour, now[name].behaviour, r)
    {
      KeptIffNothingWeakens(previous[name].behaviour, now[name].behaviour);
    }
    if violations == [] {
      forall name, r | name in names ensures !Weakens(previous[name].behaviour, now[name].behaviour, r) {
        assert multiset(violations)[Finding(now[name].file, name, r)] == 0;
      }
    } else {
      assert multiset(violations)[violations[0]] > 0;
    }
  }

  // ---------------------------------------------------------------- what clients do

  /** The retry policy a client compiles in: freely, without a key, with a key in a field, or not at all. */
  datatype Retry = Freely | Bare | WithKey(field: string) | Never

  function Policy(b: Behaviour): Retry {
    if b.safe then Freely
    else if b.idempotency == NATURAL then Bare
    else if b.idempotency == KEYED then WithKey(b.keyField)
    else Never
  }

  /** Whether a server that declares `b` is harmed by a client retrying so. */
  predicate Harmful(b: Behaviour, r: Retry) {
    match r
    case Freely => !b.safe
    case Bare => !b.safe && b.idempotency != NATURAL
    case WithKey(f) => !b.safe && b.idempotency != NATURAL && !(b.idempotency == KEYED && b.keyField == f)
    case Never => false
  }

  /** The last method declared under the name. */
  ghost predicate LastDeclared(ds: seq<Declared>, name: string, i: nat) {
    i < |ds| && ds[i].name == name && forall j | i < j < |ds| :: ds[j].name != name
  }

  /** A name is in the index exactly when a method is declared under it, and leads to the last one. */
  lemma {:induction false} IndexedIsDeclared(ds: seq<Declared>, name: string)
    ensures name in Index(ds) <==> exists i: nat :: LastDeclared(ds, name, i)
    ensures forall i: nat | LastDeclared(ds, name, i) :: name in Index(ds) && Index(ds)[name] == Method(ds[i].file, ds[i].rpc.behaviour)
  {
    if ds != [] {
      var init, last := ds[..|ds| - 1], ds[|ds| - 1];
      IndexedIsDeclared(init, name);
      if last.name == name {
        assert LastDeclared(ds, name, |init|);
        assert forall i: nat | LastDeclared(ds, name, i) :: i == |init|;
      } else {
        forall i: nat ensures LastDeclared(ds, name, i) <==> LastDeclared(init, name, i) {
          assert forall j | 0 <= j < |init| :: ds[j] == init[j];
        }
      }
    }
  }

  lemma CleanMethodsAreDecided(owned: seq<File>, all: seq<File>, name: string)
    requires Clean(owned, all) && name in IndexMethods(owned)
    ensures Decided(IndexMethods(owned)[name].behaviour)
  {
    hide Index, KeyFieldIn, MethodsOf;
    IndexedIsDeclared(MethodsOf(owned), name);
    var i: nat :| LastDeclared(MethodsOf(owned), name, i);
  }

  /** One step of the chain: whatever policy is harmless stays so, for declarations that are decided. */
  lemma HarmlessStaysHarmless(was: Behaviour, now: Behaviour, r: Retry)
    requires Decided(was) && Decided(now) && Kept(was, now) && !Harmful(was, r)
    ensures !Harmful(now, r)
  {
  }

  /** One released schema: the files this repository owns, and all they import. */
  datatype Version = Version(owned: seq<File>, all: seq<File>)

  predicate Chain(vs: seq<Version>) {
    && (forall i | 0 <= i < |vs| :: Clean(vs[i].owned, vs[i].all))
    && (forall i | 0 <= i < |vs| - 1 :: Compatible(vs[i].owned, vs[i + 1].owned))
  }

  /**
   Over any number of versions, each clean and each compatible with the one before, a client built at
   version i never retries a method in a way version j declares harmful, if the method was there throughout.
   */
  lemma {:induction false} ChainIsSafe(vs: seq<Version>, name: string, i: nat, j: nat)
    requires Chain(vs) && i <= j < |vs|
    requires forall k | i <= k <= j :: name in IndexMethods(vs[k].owned)
    ensures !Harmful(IndexMethods(vs[j].owned)[name].behaviour, Policy(IndexMethods(vs[i].owned)[name].behaviour))
    decreases j
  {
    hide Clean, IndexMethods;
    CleanMethodsAreDecided(vs[j].owned, vs[j].all, name);
    if i < j {
      ChainIsSafe(vs, name, i, j - 1);
      CleanMethodsAreDecided(vs[j - 1].owned, vs[j - 1].all, name);
      assert Compatible(vs[j - 1].owned, vs[j].owned);
      HarmlessStaysHarmless(IndexMethods(vs[j - 1].owned)[name].behaviour, IndexMethods(vs[j].owned)[name].behaviour,
                            Policy(IndexMethods(vs[i].owned)[name].behaviour));
    }
  }

  /** For one step to a declaration that is not safe the rule is exact: it forbids just what would harm. */
  lemma RuleIsExactUnlessSafe(was: Behaviour, now: Behaviour)
    requires Decided(was) && Decided(now)
    ensures Kept(was, now) ==> !Harmful(now, Policy(was))
    ensures !now.safe ==> (Kept(was, now) <==> !Harmful(now, Policy(was)))
  {
  }

  /** The pairwise rule is not transitive even among decided declarations, and the change it misses is harmless. */
  lemma RuleIsNotTransitive()
    ensures exists a, b, c :: Decided(a) && Decided(b) && Decided(c) && Kept(a, b) && Kept(b, c) && !Kept(a, c)
                              && !Harmful(c, Policy(a))
  {
    var a, b, c := Behaviour(false, NATURAL, ""), Behaviour(true, UNSPECIFIED, ""), Behaviour(true, KEYED, "key");
    assert Decided(a) && Decided(b) && Decided(c) && Kept(a, b) && Kept(b, c) && !Kept(a, c) && !Harmful(c, Policy(a));
  }

  /** It is transitive wherever it matters: over decided declarations to one that is not safe. */
  lemma KeptIsTransitiveUnlessSafe(a: Behaviour, b: Behaviour, c: Behaviour)
    requires Decided(a) && Decided(b) && Decided(c) && Kept(a, b) && Kept(b, c)
    ensures !c.safe ==> Kept(a, c)
  {
  }

  /**
   So along a chain of any length adjacent checks are as good as checking every version against every
   later one: whatever declaration that is not safe a method ends in, the rule holds from each before it.
   */
  lemma ChainKeepsTheRule(vs: seq<Version>, name: string, i: nat, j: nat)
    requires Chain(vs) && i <= j < |vs|
    requires forall k | i <= k <= j :: name in IndexMethods(vs[k].owned)
    ensures !IndexMethods(vs[j].owned)[name].behaviour.safe ==>
              Kept(IndexMethods(vs[i].owned)[name].behaviour, IndexMethods(vs[j].owned)[name].behaviour)
  {
    hide Clean, IndexMethods, Compatible;
    ChainIsSafe(vs, name, i, j);
    CleanMethodsAreDecided(vs[i].owned, vs[i].all, name);
    CleanMethodsAreDecided(vs[j].owned, vs[j].all, name);
    RuleIsExactUnlessSafe(IndexMethods(vs[i].owned)[name].behaviour, IndexMethods(vs[j].owned)[name].behaviour);
  }

  /** Without the annotation rules the chain breaks: an undecided declaration launders NATURAL into UNSAFE. */
  lemma UndecidedLaunders()
    ensures exists a, b, c :: Decided(a) && !Decided(b) && Decided(c) && Kept(a, b) && Kept(b, c) && Harmful(c, Policy(a))
  {
    var a, b, c := Behaviour(false, NATURAL, ""), Behaviour(false, UNSPECIFIED, ""), Behaviour(false, UNSAFE, "");
    assert Decided(a) && !Decided(b) && Decided(c) && Kept(a, b) && Kept(b, c) && Harmful(c, Policy(a));
  }

  /** Three versions: a method declared NATURAL, then gone, then back as UNSAFE. */
  function Returning(package: string, service: string, name: string): seq<Version> {
    [Version([Holding(package, service, Rpc(name, "", IDEMPOTENT, Behaviour(false, NATURAL, "")))], []),
     Version([], []),
     Version([Holding(package, service, Rpc(name, "", IDEMPOTENCY_UNKNOWN, Behaviour(false, UNSAFE, "")))], [])]
  }

  function Holding(package: string, service: string, m: Rpc): File {
    File("a.proto", package, [Service(service, [m])], [])
  }

  /** And a method that goes and comes back under its old name is compared with nothing. */
  lemma ReturningMethodIsUnprotected(package: string, service: string, name: string)
    ensures var vs, n := Returning(package, service, name), Qualify(Qualify(package, service), name);
            && Chain(vs) && n in IndexMethods(vs[0].owned) && n in IndexMethods(vs[2].owned)
            && Harmful(IndexMethods(vs[2].owned)[n].behaviour, Policy(IndexMethods(vs[0].owned)[n].behaviour))
  {
    hide MethodsOf, Index, Qualify, IndexMessages;
    var vs := Returning(package, service, name);
    OneMethod(vs[0].owned[0], service, vs[0].owned[0].services[0].methods[0]);
    OneMethod(vs[2].owned[0], service, vs[2].owned[0].services[0].methods[0]);
    NoMethods();
    assert Clean(vs[0].owned, []) && Clean([], []) && Clean(vs[2].owned, []);
    assert Compatible(vs[0].owned, []) && Compatible([], vs[2].owned);
  }

  lemma NoMethods()
    ensures MethodsOf([]) == [] && IndexMethods([]) == map[]
  {
  }

  lemma OneMethod(f: File, service: string, m: Rpc)
    requires f.services == [Service(service, [m])]
    ensures var name := Qualify(Qualify(f.package, service), m.name);
            MethodsOf([f]) == [Declared(f.name, name, m)] && IndexMethods([f]) == map[name := Method(f.name, m.behaviour)]
  {
    var name := Qualify(Qualify(f.package, service), m.name);
    var s := Service(service, [m]);
    assert MethodsOfService(f, s) == [Declared(f.name, name, m)];
    assert [s][..0] == [];
    assert MethodsOfServices(f, []) == [];
    assert MethodsOfServices(f, [s]) == [Declared(f.name, name, m)];
    assert [f][..0] == [];
    assert MethodsOf([f]) == MethodsOf([]) + MethodsOfServices(f, f.services) == [Declared(f.name, name, m)];
    assert [Declared(f.name, name, m)][..0] == [];
    assert Index([Declared(f.name, name, m)]) == Index([])[name := Method(f.name, m.behaviour)];
  }
}
