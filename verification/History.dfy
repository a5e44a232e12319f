/** The embedded migrations, the applied history, and the comparison of the two. */
module History {
  import opened Prelude
  import opened SqlLexer
  import opened PhraseGuard

  /** A file of the directory. Its digest is taken as a value that equals another exactly when it does. */
  datatype File = File(name: Text, body: Text, digest: nat)

  datatype Migration = Migration(number: int, name: Text, sql: Text, digest: nat)

  /** A row of schema_migrations. */
  datatype Record = Record(number: int, name: Text, digest: nat)

  // ---------------------------------------------------------------- one file

  /** strconv.Atoi, on a 64-bit int. */
  function Atoi(s: Text): Option<int> {
    var digits := if s != "" && (s[0] == '+' || s[0] == '-') then s[1..] else s;
    if digits == "" || !AllDigits(digits) then None
    else
      var n: int := if s[0] == '-' then -(DecimalOf(digits) as int) else DecimalOf(digits);
      if -0x8000_0000_0000_0000 <= n < 0x8000_0000_0000_0000 then Some(n) else None
  }

  datatype FileError = NotSql | NotNamed | NotNumbered | NonTransactional(why: Refusal)

  datatype Parsed = Good(number: int) | Bad(why: FileError)

  /** The name's part of the per-file checks: NNNN_slug.sql, with a positive number. */
  function ParseName(name: Text): Parsed {
    if |name| < 4 || name[|name| - 4..] != ".sql" then Bad(NotSql)
    else
      var stem := name[..|name| - 4];
      match Index(stem, "_")
      case None => Bad(NotNamed)
      case Some(i) =>
        match Atoi(stem[..i])
        case None => Bad(NotNumbered)
        case Some(n) => if n < 1 then Bad(NotNumbered) else Good(n)
  }

  /** NNNN_slug.sql: digits, perhaps after a plus sign, up to the first underscore. */
  ghost predicate NamedAs(name: Text, digits: Text, slug: Text) {
    && digits != "" && AllDigits(digits)
    && (name == digits + ("_" + (slug + ".sql")) || name == "+" + digits + ("_" + (slug + ".sql")))
  }

  lemma FirstUnderscore(head: Text, slug: Text)
    requires forall i | 0 <= i < |head| :: head[i] != '_'
    ensures Index(head + ("_" + slug), "_") == Some(|head|)
  {
    hide Index, OccursAt;
    var s := head + ("_" + slug);
    CharacterAt(s, '_');
    assert s[|head|] == '_' && forall i | 0 <= i < |head| :: s[i] == head[i];
    FoundAt(s, "_", |head|);
  }

  lemma AtoiReads(digits: Text)
    requires digits != "" && AllDigits(digits)
    ensures var n := DecimalOf(digits);
            var r := if n < 0x8000_0000_0000_0000 then Some(n as int) else None;
            Atoi(digits) == r && Atoi("+" + digits) == r
  {
    assert ("+" + digits)[1..] == digits;
  }

  /** A name with a stem whose first underscore stands behind `head`. */
  lemma ParsesHead(head: Text, slug: Text)
    requires forall i | 0 <= i < |head| :: head[i] != '_'
    ensures ParseName(head + ("_" + (slug + ".sql")))
            == match Atoi(head) case None => Bad(NotNumbered) case Some(n) => if n < 1 then Bad(NotNumbered) else Good(n)
  {
    hide Index, Atoi;
    var name := head + ("_" + (slug + ".sql"));
    var stem := head + ("_" + slug);
    assert name == stem + ".sql";
    assert name[|name| - 4..] == ".sql" && name[..|name| - 4] == stem;
    FirstUnderscore(head, slug);
    assert stem[..|head|] == head;
  }

  /** A stem with an underscore is what stands before its first, and what stands behind. */
  lemma SplitsAtUnderscore(stem: Text, i: nat)
    requires Index(stem, "_") == Some(i)
    ensures i < |stem| && stem == stem[..i] + ("_" + stem[i + 1..])
  {
    hide Index, OccursAt;
    CharacterAt(stem, '_');
    assert OccursAt(stem, "_", i);
    assert stem == stem[..i] + [stem[i]] + stem[i + 1..];
  }

  lemma HeadOfGood(name: Text)
    requires ParseName(name).Good?
    ensures exists head, slug :: name == head + ("_" + (slug + ".sql")) && Atoi(head) == Some(ParseName(name).number)
                                 && ParseName(name).number >= 1
  {
    hide Atoi, Index;
    var stem := name[..|name| - 4];
    assert name == stem + ".sql";
    var i := Index(stem, "_").value;
    SplitsAtUnderscore(stem, i);
    var head, slug := stem[..i], stem[i + 1..];
    Concatenated(head, "_" + slug, ".sql");
    Concatenated("_", slug, ".sql");
    assert Atoi(head) == Some(ParseName(name).number);
  }

  lemma PositiveHead(head: Text)
    requires Atoi(head).Some? && Atoi(head).value >= 1
    ensures exists digits :: digits != "" && AllDigits(digits) && DecimalOf(digits) == Atoi(head).value
                             && (head == digits || head == "+" + digits)
    ensures Atoi(head).value < 0x8000_0000_0000_0000
  {
    var digits := if head[0] == '+' || head[0] == '-' then head[1..] else head;
    assert head[0] == '+' ==> head == "+" + digits;
  }

  /**
   What a name's number is: exactly that of the digits before the first underscore, leading zeros and a
   plus sign allowed, if it is positive and a 64-bit integer can hold it.
   */
  lemma NumbersExactly(name: Text, n: int)
    ensures ParseName(name) == Good(n) <==>
              1 <= n < 0x8000_0000_0000_0000 && exists digits, slug :: NamedAs(name, digits, slug) && DecimalOf(digits) == n
  {
    hide ParseName, Atoi, DecimalOf;
    if ParseName(name) == Good(n) {
      HeadOfGood(name);
      var head, slug :| name == head + ("_" + (slug + ".sql")) && Atoi(head) == Some(n) && n >= 1;
      PositiveHead(head);
      var digits :| digits != "" && AllDigits(digits) && DecimalOf(digits) == n && (head == digits || head == "+" + digits);
      assert NamedAs(name, digits, slug);
    }
    if 1 <= n < 0x8000_0000_0000_0000 {
      forall digits, slug | NamedAs(name, digits, slug) && DecimalOf(digits) == n
        ensures ParseName(name) == Good(n)
      {
        AtoiReads(digits);
        ParsesHead(digits, slug);
        ParsesHead("+" + digits, slug);
      }
    }
  }

  /** In particular the usual names: zeros, the number in decimal, a slug. */
  lemma UsualNames(zeros: Text, n: nat, slug: Text)
    requires 1 <= n < 0x8000_0000_0000_0000 && forall i | 0 <= i < |zeros| :: zeros[i] == '0'
    ensures ParseName(zeros + Digits(n) + ("_" + (slug + ".sql"))) == Good(n)
  {
    hide ParseName, DecimalOf, Digits;
    DigitsSpell(n);
    LeadingZeros(zeros, Digits(n));
    assert NamedAs(zeros + Digits(n) + ("_" + (slug + ".sql")), zeros + Digits(n), slug);
    NumbersExactly(zeros + Digits(n) + ("_" + (slug + ".sql")), n);
  }

  predicate Passes(f: File) {
    && ParseName(f.name).Good?
    && !Refused(CollapseSpace(Strip(f.body))) && !Refused(CollapseSpace(f.body))
  }

  /** Why a file does not pass. */
  ghost predicate FailsFor(f: File, why: FileError) {
    if why.NonTransactional? then ParseName(f.name).Good? && RefusedFor(f.body, why.why) else ParseName(f.name) == Bad(why)
  }

  function MigrationOf(f: File): Migration
    requires Passes(f)
  {
    Migration(ParseName(f.name).number, f.name, f.body, f.digest)
  }

  function MigrationsOf(files: seq<File>): seq<Migration>
    requires forall f | f in files :: Passes(f)
  {
    seq(|files|, i requires 0 <= i < |files| => MigrationOf(files[i]))
  }

  function Numbers(ms: seq<Migration>): seq<int> {
    seq(|ms|, i requires 0 <= i < |ms| => ms[i].number)
  }

  function OneTo(n: nat): seq<int> {
    seq(n, i => i + 1)
  }

  // ---------------------------------------------------------------- sorting

  ghost predicate Ascending(s: seq<int>) {
    forall i, j | 0 <= i < j < |s| :: s[i] <= s[j]
  }

  lemma FirstIsLeast(a: seq<int>, x: int)
    requires Ascending(a) && x in multiset(a)
    ensures a != [] && a[0] <= x
  {
    var i :| 0 <= i < |a| && a[i] == x;
  }

  lemma WithoutFirst(a: seq<int>)
    requires a != []
    ensures multiset(a[1..]) == multiset(a) - multiset{a[0]}
  {
    assert a == [a[0]] + a[1..];
  }

  lemma AscendingTail(a: seq<int>)
    requires Ascending(a) && a != []
    ensures Ascending(a[1..])
  {
  }

  lemma SameFirst(a: seq<int>, b: seq<int>)
    requires Ascending(a) && Ascending(b) && multiset(a) == multiset(b) && a != []
    ensures b != [] && a[0] == b[0]
  {
    hide Ascending;
    assert a[0] in multiset(a);
    FirstIsLeast(b, a[0]);
    assert b[0] in multiset(b);
    FirstIsLeast(a, b[0]);
  }

  /** Two ascending sequences of the same numbers are one sequence. */
  lemma {:induction false} AscendingIsUnique(a: seq<int>, b: seq<int>)
    requires Ascending(a) && Ascending(b) && multiset(a) == multiset(b)
    ensures a == b
  {
    hide Ascending;
    if a != [] {
      SameFirst(a, b);
      WithoutFirst(a);
      WithoutFirst(b);
      AscendingTail(a);
      AscendingTail(b);
      AscendingIsUnique(a[1..], b[1..]);
      assert a == [a[0]] + a[1..];
      assert b == [b[0]] + b[1..];
    } else if b != [] {
      SameFirst(b, a);
    }
  }

  function InsertByNumber(sorted: seq<Migration>, m: Migration): seq<Migration> {
    if sorted == [] || sorted[|sorted| - 1].number <= m.number then sorted + [m]
    else InsertByNumber(sorted[..|sorted| - 1], m) + [sorted[|sorted| - 1]]
  }

  ghost predicate InOrder(ms: seq<Migration>) {
    forall i, j | 0 <= i < j < |ms| :: ms[i].number <= ms[j].number
  }

  lemma {:induction false} InsertAdds(sorted: seq<Migration>, m: Migration)
    ensures multiset(InsertByNumber(sorted, m)) == multiset(sorted) + multiset{m}
  {
    if sorted != [] {
      var init, last := sorted[..|sorted| - 1], sorted[|sorted| - 1];
      assert sorted == init + [last];
      if last.number > m.number {
        InsertAdds(init, m);
      }
    }
  }

  lemma {:induction false} InsertBounds(sorted: seq<Migration>, m: Migration, bound: int)
    requires m.number <= bound && forall i | 0 <= i < |sorted| :: sorted[i].number <= bound
    ensures forall i | 0 <= i < |InsertByNumber(sorted, m)| :: InsertByNumber(sorted, m)[i].number <= bound
  {
    if sorted != [] && sorted[|sorted| - 1].number > m.number {
      InsertBounds(sorted[..|sorted| - 1], m, bound);
    }
  }

  lemma AppendKeepsOrder(init: seq<Migration>, last: Migration)
    requires InOrder(init) && forall i | 0 <= i < |init| :: init[i].number <= last.number
    ensures InOrder(init + [last])
  {
  }

  lemma {:induction false} InsertKeepsOrder(sorted: seq<Migration>, m: Migration)
    requires InOrder(sorted)
    ensures InOrder(InsertByNumber(sorted, m))
  {
    if sorted == [] || sorted[|sorted| - 1].number <= m.number {
      AppendKeepsOrder(sorted, m);
    } else {
      var init, last := sorted[..|sorted| - 1], sorted[|sorted| - 1];
      InsertKeepsOrder(init, m);
      InsertBounds(init, m, last.number);
      AppendKeepsOrder(InsertByNumber(init, m), last);
    }
  }

  lemma {:induction false} InsertAddsNumber(sorted: seq<Migration>, m: Migration)
    ensures multiset(Numbers(InsertByNumber(sorted, m))) == multiset(Numbers(sorted)) + multiset{m.number}
  {
    if sorted == [] || sorted[|sorted| - 1].number <= m.number {
      assert Numbers(sorted + [m]) == Numbers(sorted) + [m.number];
    } else {
      var init, last := sorted[..|sorted| - 1], sorted[|sorted| - 1];
      InsertAddsNumber(init, m);
      assert sorted == init + [last];
      assert Numbers(InsertByNumber(init, m) + [last]) == Numbers(InsertByNumber(init, m)) + [last.number];
      assert Numbers(init + [last]) == Numbers(init) + [last.number];
    }
  }

  /** sort.Slice by number. */
  method SortByNumber(ms: seq<Migration>) returns (sorted: seq<Migration>)
    ensures InOrder(sorted) && multiset(sorted) == multiset(ms) && |sorted| == |ms|
    ensures multiset(Numbers(sorted)) == multiset(Numbers(ms))
  {
    sorted := [];
    assert Numbers([]) == [];
    for i := 0 to |ms|
      invariant InOrder(sorted) && multiset(sorted) == multiset(ms[..i]) && |sorted| == i
      invariant multiset(Numbers(sorted)) == multiset(Numbers(ms[..i]))
    {
      InsertKeepsOrder(sorted, ms[i]);
      InsertAdds(sorted, ms[i]);
      InsertAddsNumber(sorted, ms[i]);
      assert ms[..i + 1] == ms[..i] + [ms[i]];
      assert Numbers(ms[..i + 1]) == Numbers(ms[..i]) + [ms[i].number];
      sorted := InsertByNumber(sorted, ms[i]);
      assert |multiset(sorted)| == |sorted| && |multiset(ms[..i + 1])| == i + 1;
    }
    assert ms[..|ms|] == ms;
  }

  // ---------------------------------------------------------------- the loader

  datatype LoadError = BadFile(name: Text, why: FileError) | Duplicate(number: int) | Gap(expected: int)

  datatype Loaded = Set(migrations: seq<Migration>) | Malformed(error: LoadError)

  ghost predicate Contiguous(ms: seq<Migration>) {
    forall i | 0 <= i < |ms| :: ms[i].number == i + 1
  }

  lemma ContiguousIffOneTo(sorted: seq<Migration>)
    requires InOrder(sorted)
    ensures Contiguous(sorted) <==> multiset(Numbers(sorted)) == multiset(OneTo(|sorted|))
  {
    if Contiguous(sorted) {
      assert Numbers(sorted) == OneTo(|sorted|);
    }
    if multiset(Numbers(sorted)) == multiset(OneTo(|sorted|)) {
      AscendingIsUnique(Numbers(sorted), OneTo(|sorted|));
      assert forall i | 0 <= i < |sorted| :: sorted[i].number == Numbers(sorted)[i];
    }
  }

  /** No number comes twice, and `expected` is the first that does not come at all. */
  ghost predicate Misses(numbers: multiset<int>, expected: int) {
    && expected !in numbers && (forall n | 1 <= n < expected :: n in numbers) && (forall n | n in numbers :: numbers[n] == 1)
  }

  lemma TwoOfOne(ms: seq<Migration>, i: nat)
    requires i + 1 < |ms| && ms[i].number == ms[i + 1].number
    ensures multiset(Numbers(ms))[ms[i].number] > 1
  {
    var numbers := Numbers(ms);
    assert numbers == numbers[..i] + [numbers[i], numbers[i + 1]] + numbers[i + 2..];
  }

  lemma {:induction false} StrictlyAscending(ms: seq<Migration>, i: nat, j: nat)
    requires forall k | 1 <= k < |ms| :: ms[k].number > ms[k - 1].number
    requires i < j < |ms|
    ensures ms[i].number < ms[j].number
  {
    if i + 1 < j { StrictlyAscending(ms, i, j - 1); }
  }

  lemma {:induction false} OnceEach(numbers: seq<int>, n: int)
    requires forall i, j | 0 <= i < j < |numbers| :: numbers[i] != numbers[j]
    requires n in numbers
    ensures multiset(numbers)[n] == 1
  {
    var last := |numbers| - 1;
    assert numbers == numbers[..last] + [numbers[last]];
    if n in numbers[..last] { OnceEach(numbers[..last], n); }
  }

  lemma NumbersAscend(sorted: seq<Migration>)
    requires InOrder(sorted) && forall i | 1 <= i < |sorted| :: sorted[i].number != sorted[i - 1].number
    ensures forall i, j | 0 <= i < j < |sorted| :: Numbers(sorted)[i] < Numbers(sorted)[j]
  {
    forall i, j | 0 <= i < j < |sorted|
      ensures Numbers(sorted)[i] < Numbers(sorted)[j]
    {
      StrictlyAscending(sorted, i, j);
    }
  }

  lemma FirstMissing(sorted: seq<Migration>, k: nat)
    requires InOrder(sorted) && k < |sorted|
    requires forall i | 1 <= i < |sorted| :: sorted[i].number != sorted[i - 1].number
    requires forall j | 0 <= j < k :: sorted[j].number == j + 1
    requires sorted[k].number != k + 1 && sorted[0].number >= 1
    ensures Misses(multiset(Numbers(sorted)), k + 1)
  {
    NumbersAscend(sorted);
    MissingAmong(Numbers(sorted), k);
  }

  lemma MissingAmong(numbers: seq<int>, k: nat)
    requires k < |numbers| && forall i, j | 0 <= i < j < |numbers| :: numbers[i] < numbers[j]
    requires forall j | 0 <= j < k :: numbers[j] == j + 1
    requires numbers[k] != k + 1 && numbers[0] >= 1
    ensures Misses(multiset(numbers), k + 1)
  {
    forall n | n in multiset(numbers)
      ensures multiset(numbers)[n] == 1
    {
      OnceEach(numbers, n);
    }
    forall n | 1 <= n < k + 1
      ensures n in multiset(numbers)
    {
      assert numbers[n - 1] == n;
    }
    assert k > 0 ==> numbers[k] > numbers[k - 1] == k;
    assert forall i | 0 <= i < |numbers| :: numbers[i] != k + 1;
  }

  lemma PositiveNumbers(files: seq<File>, ms: seq<Migration>)
    requires (forall f | f in files :: Passes(f)) && multiset(ms) == multiset(MigrationsOf(files))
    ensures forall m | m in ms :: m.number >= 1
  {
    hide Refused, Strip, CollapseSpace;
    forall m | m in ms
      ensures m.number >= 1
    {
      assert m in multiset(ms);
      var i :| 0 <= i < |files| && MigrationOf(files[i]) == m;
      assert files[i] in files;
    }
  }

  /** The per-file checks, in the order the source makes them. */
  method CheckFile(f: File) returns (r: Parsed)
    ensures r.Good? <==> Passes(f)
    ensures r.Good? ==> r == ParseName(f.name)
    ensures r.Bad? ==> FailsFor(f, r.why)
  {
    hide Refused, RefusedFor, CollapseSpace, Strip;
    r := ParseName(f.name);
    if r.Good? {
      var refusal := RejectNonTransactional(f.body);
      if refusal.Some? {
        r := Bad(NonTransactional(refusal.value));
      }
    }
  }

  /** The first file that does not pass, and the reason. */
  ghost predicate FirstBad(files: seq<File>, name: Text, why: FileError) {
    exists k :: 0 <= k < |files| && files[k].name == name && FailsFor(files[k], why) && forall j | 0 <= j < k :: Passes(files[j])
  }

  /** The two passes over the sorted set: for a number claimed twice, then for a gap. */
  method CheckNumbers(sorted: seq<Migration>) returns (error: Option<LoadError>)
    requires InOrder(sorted) && forall m | m in sorted :: m.number >= 1
    ensures error == None <==> Contiguous(sorted)
    ensures error.Some? ==> !error.value.BadFile?
    ensures error.Some? && error.value.Duplicate? ==> multiset(Numbers(sorted))[error.value.number] > 1
    ensures error.Some? && error.value.Gap? ==> Misses(multiset(Numbers(sorted)), error.value.expected)
  {
    hide Misses, Numbers, InOrder;
    var i := 1;
    while i < |sorted|
      invariant 1 <= i
      invariant forall k | 1 <= k < i && k < |sorted| :: sorted[k].number != sorted[k - 1].number
    {
      if sorted[i].number == sorted[i - 1].number {
        TwoOfOne(sorted, i - 1);
        return Some(Duplicate(sorted[i].number));
      }
      i := i + 1;
    }
    for k := 0 to |sorted|
      invariant forall j | 0 <= j < k :: sorted[j].number == j + 1
    {
      if sorted[k].number != k + 1 {
        FirstMissing(sorted, k);
        return Some(Gap(k + 1));
      }
    }
    return None;
  }

  /**
   Succeeds exactly when every file passes and their numbers are 1..n in some order, and returns them in
   order. Otherwise it names the first file that does not pass and why, or a number at fault.
   */
  method LoadMigrationsFrom(files: seq<File>) returns (r: Loaded)
    ensures r.Set? <==>
              (forall f | f in files :: Passes(f)) && multiset(Numbers(MigrationsOf(files))) == multiset(OneTo(|files|))
    ensures r.Set? ==> Contiguous(r.migrations) && multiset(r.migrations) == multiset(MigrationsOf(files))
    ensures r.Malformed? && r.error.BadFile? <==> exists f | f in files :: !Passes(f)
    ensures r.Malformed? && r.error.BadFile? ==> FirstBad(files, r.error.name, r.error.why)
    ensures r.Malformed? && r.error.Duplicate? ==> multiset(Numbers(MigrationsOf(files)))[r.error.number] > 1
    ensures r.Malformed? && r.error.Gap? ==> Misses(multiset(Numbers(MigrationsOf(files))), r.error.expected)
  {
    hide Misses, Passes, FailsFor;
    var out: seq<Migration> := [];
    for i := 0 to |files|
      invariant forall f | f in files[..i] :: Passes(f)
      invariant out == MigrationsOf(files[..i])
    {
      var parsed := CheckFile(files[i]);
      if parsed.Bad? {
        assert files[i] in files;
        assert forall j | 0 <= j < i :: Passes(files[j]) by { assert forall j | 0 <= j < i :: files[j] in files[..i]; }
        return Malformed(BadFile(files[i].name, parsed.why));
      }
      assert files[..i + 1] == files[..i] + [files[i]];
      out := out + [Migration(parsed.number, files[i].name, files[i].body, files[i].digest)];
    }
    assert files[..|files|] == files;
    var sorted := SortByNumber(out);
    assert forall m | m in sorted :: m.number >= 1 by { PositiveNumbers(files, sorted); }
    var error := CheckNumbers(sorted);
    ContiguousIffOneTo(sorted);
    if error.Some? {
      return Malformed(error.value);
    }
    return Set(sorted);
  }

  // ---------------------------------------------------------------- compare

  function RecordOf(m: Migration): Record {
    Record(m.number, m.name, m.digest)
  }

  function Records(ms: seq<Migration>): (rs: seq<Record>)
    ensures |rs| == |ms|
  {
    seq(|ms|, i requires 0 <= i < |ms| => RecordOf(ms[i]))
  }

  datatype Verdict = InStep | ErrPending | ErrSchemaMismatch

  /** nil exactly on equality, ErrPending exactly on a strict prefix, ErrSchemaMismatch otherwise. */
  method Compare(embedded: seq<Migration>, applied: seq<Record>) returns (v: Verdict)
    ensures v == InStep <==> applied == Records(embedded)
    ensures v == ErrPending <==> applied < Records(embedded)
  {
    if |applied| > |embedded| {
      return ErrSchemaMismatch;
    }
    for i := 0 to |applied|
      invariant applied[..i] == Records(embedded)[..i]
    {
      var a, e := applied[i], embedded[i];
      assert Records(embedded)[i] == RecordOf(e);
      if a.number != e.number || a.name != e.name || a.digest != e.digest {
        return ErrSchemaMismatch;
      }
    }
    assert applied == applied[..|applied|];
    if |applied| < |embedded| {
      return ErrPending;
    }
    return InStep;
  }

  // ---------------------------------------------------------------- one migrator, alone

  /** The set a directory of files holds, in order; there is at most one. */
  ghost predicate Embeds(files: seq<File>, ms: seq<Migration>) {
    (forall f | f in files :: Passes(f)) && Contiguous(ms) && multiset(ms) == multiset(MigrationsOf(files))
  }

  /** Entry i of the set is the file numbered i + 1, whole. */
  lemma EmbedsTheFiles(files: seq<File>, ms: seq<Migration>, i: nat)
    requires Embeds(files, ms) && i < |ms|
    ensures exists f :: f in files && ParseName(f.name) == Good(i + 1) && ms[i] == Migration(i + 1, f.name, f.body, f.digest)
  {
    hide ParseName, Refused, CollapseSpace, Strip;
    assert ms[i] in multiset(MigrationsOf(files));
    var k :| 0 <= k < |files| && MigrationsOf(files)[k] == ms[i];
    assert files[k] in files;
  }

  /** Two histories tell two sets apart by every number, name and digest. */
  lemma RecordsTell(a: seq<Migration>, b: seq<Migration>)
    ensures Records(a) == Records(b) <==>
              |a| == |b| && forall i | 0 <= i < |a| :: a[i].number == b[i].number && a[i].name == b[i].name && a[i].digest == b[i].digest
  {
    if Records(a) == Records(b) {
      forall i | 0 <= i < |a| ensures a[i].number == b[i].number && a[i].name == b[i].name && a[i].digest == b[i].digest {
        assert Records(a)[i] == Records(b)[i];
      }
    }
  }

  lemma EmbedsOne(files: seq<File>, a: seq<Migration>, b: seq<Migration>)
    requires Embeds(files, a) && Embeds(files, b)
    ensures a == b
  {
    hide Passes;
    assert |multiset(a)| == |a| && |multiset(b)| == |b|;
    forall i | 0 <= i < |a|
      ensures a[i] == b[i]
    {
      assert a[i] in multiset(b);
      var j :| 0 <= j < |b| && b[j] == a[i];
    }
  }

  /** A set that can be loaded is numbered 1..n, so the loader finds it. */
  lemma EmbedsMeansNumbered(files: seq<File>, ms: seq<Migration>)
    requires Embeds(files, ms)
    ensures multiset(Numbers(MigrationsOf(files))) == multiset(OneTo(|files|))
  {
    hide Passes;
    assert |multiset(ms)| == |ms| && |multiset(MigrationsOf(files))| == |files|;
    assert Numbers(ms) == OneTo(|ms|);
    SameNumbers(ms, MigrationsOf(files));
  }

  function Without(ms: seq<Migration>, j: nat): seq<Migration>
    requires j < |ms|
  {
    ms[..j] + ms[j + 1..]
  }

  lemma WithoutOne(ms: seq<Migration>, j: nat)
    requires j < |ms|
    ensures multiset(ms) == multiset(Without(ms, j)) + multiset{ms[j]}
  {
    assert ms == ms[..j] + [ms[j]] + ms[j + 1..];
  }

  lemma NumbersWithoutOne(ms: seq<Migration>, j: nat)
    requires j < |ms|
    ensures multiset(Numbers(ms)) == multiset(Numbers(Without(ms, j))) + multiset{ms[j].number}
  {
    assert Numbers(ms) == Numbers(ms[..j]) + [ms[j].number] + Numbers(ms[j + 1..]);
    assert Numbers(Without(ms, j)) == Numbers(ms[..j]) + Numbers(ms[j + 1..]);
  }

  lemma {:induction false} SameNumbers(a: seq<Migration>, b: seq<Migration>)
    requires multiset(a) == multiset(b)
    ensures multiset(Numbers(a)) == multiset(Numbers(b))
    decreases |a|
  {
    assert |multiset(a)| == |a| && |multiset(b)| == |b|;
    if a != [] {
      assert a[0] in multiset(b);
      var j :| 0 <= j < |b| && b[j] == a[0];
      hide Numbers, Without;
      WithoutOne(a, 0);
      WithoutOne(b, j);
      NumbersWithoutOne(a, 0);
      NumbersWithoutOne(b, j);
      SameButOne(multiset(Without(a, 0)), multiset(Without(b, j)), a[0]);
      assert |Without(a, 0)| < |a| by { ShorterWithout(a); }
      SameNumbers(Without(a, 0), Without(b, j));
    } else {
      assert a == b;
    }
  }

  lemma SameButOne(a: multiset<Migration>, b: multiset<Migration>, m: Migration)
    requires a + multiset{m} == b + multiset{m}
    ensures a == b
  {
    assert a == (a + multiset{m}) - multiset{m} && b == (b + multiset{m}) - multiset{m};
  }

  lemma ShorterWithout(ms: seq<Migration>)
    requires ms != []
    ensures |Without(ms, 0)| == |ms| - 1
  {
  }

  /** Where a migrator's session fails, if it does: at a call before the first migration, or in one. */
  datatype Fault = Nowhere | Call(step: nat) | Migrating(index: nat, where: Where) {
    predicate At(n: nat) { Call? && step == n }
  }

  /** Inside one migration's transaction; a COMMIT whose answer is lost may have landed. */
  datatype Where = Begin | DDL | Insert | Commit(landed: bool)

  /** What one run appended: the set's next entries and, entry for entry, their DDL. */
  ghost predicate Appended(before: seq<Record>, after: seq<Record>, ddlBefore: seq<Text>, ddlAfter: seq<Text>, ms: seq<Migration>) {
    && before <= after <= Records(ms) && ddlBefore <= ddlAfter && |ddlAfter| == |after| && |ddlBefore| == |before|
    && forall i | |before| <= i < |after| :: ddlAfter[i] == ms[i].sql
  }

  datatype Startup = Checked(verdict: Verdict) | NotLoaded(error: LoadError) | Unreadable

  /** The database a migrator runs against. `schema` is the DDL applied to it, migration by migration. */
  class Database {
    var table: bool
    var history: seq<Record>
    var schema: seq<Text>
    var locked: bool

    predicate Valid()
      reads this
    {
      (!table ==> history == []) && |schema| == |history|
    }

    constructor ()
      ensures Valid() && !table && !locked
    {
      table, history, schema, locked := false, [], [], false;
    }

    /** The DDL and the row recording it land together, or neither does. */
    method ApplyOne(m: Migration, fault: Option<Where>) returns (ok: bool)
      requires table
      modifies this
      ensures ok <==> fault == None && forall r | r in old(history) :: r.number != m.number
      ensures || (history == old(history) && schema == old(schema))
              || (history == old(history) + [RecordOf(m)] && schema == old(schema) + [m.sql])
      ensures ok ==> history == old(history) + [RecordOf(m)]
      ensures !ok && fault != Some(Commit(true)) ==> history == old(history)
      ensures table && locked == old(locked)
    {
      if fault == Some(Begin) {
        return false;
      }
      var openSchema, openHistory := schema, history;
      if fault == Some(DDL) {
        return false;
      }
      openSchema := openSchema + [m.sql];
      if fault == Some(Insert) || exists i | 0 <= i < |openHistory| :: openHistory[i].number == m.number {
        return false;
      }
      openHistory := openHistory + [RecordOf(m)];
      if fault.Some? && fault.value.Commit? && !fault.value.landed {
        return false;
      }
      schema, history := openSchema, openHistory;
      return fault == None;
    }

    /** The loop over what is pending. */
    method ApplyPending(embedded: seq<Migration>, fault: Fault) returns (ok: bool)
      requires Valid() && table && Contiguous(embedded) && history <= Records(embedded)
      modifies this
      ensures Valid() && table && locked == old(locked)
      ensures Appended(old(history), history, old(schema), schema, embedded)
      ensures ok ==> history == Records(embedded)
      ensures !fault.Migrating? ==> ok
    {
      var k := |history|;
      while k < |embedded|
        invariant |old(history)| <= k <= |embedded|
        invariant history == Records(embedded)[..k] && Valid() && table && locked == old(locked)
        invariant Appended(old(history), history, old(schema), schema, embedded)
      {
        NumberIsFree(embedded, history, k);
        ghost var before, ddl := history, schema;
        var done := ApplyOne(embedded[k], if fault.Migrating? && fault.index == k then Some(fault.where) else None);
        OneMoreRecord(embedded, k);
        if !done {
          return false;
        }
        k := k + 1;
      }
      return true;
    }

    /**
     Calls: 0 connection, 1 search_path, 2 lock_timeout, 3 the lock, 4 current_user, 5 CREATE TABLE, 6 the
     history. However it ends the lock is free and the history has grown, if at all, by the next entries
     of the one set the files hold, each with its DDL. The runtime role is refused before anything exists.
     */
    method Migrate(files: seq<File>, runtimeRole: bool, fault: Fault) returns (ok: bool)
      requires Valid() && !locked
      modifies this
      ensures Valid() && !locked
      ensures ok ==> exists ms :: Embeds(files, ms) && history == Records(ms)
      ensures history != old(history) ==>
                exists ms :: Embeds(files, ms) && Appended(old(history), history, old(schema), schema, ms)
      ensures history == old(history) ==> schema == old(schema)
      ensures runtimeRole ==> !ok && table == old(table) && history == old(history)
      ensures !runtimeRole && fault == Nowhere ==> (ok <==> exists ms :: Embeds(files, ms) && old(history) <= Records(ms))
    {
      hide Embeds, Appended;
      if fault.At(0) || fault.At(1) || fault.At(2) || fault.At(3) {
        return false;
      }
      locked := true;
      if fault.At(4) || runtimeRole || fault.At(5) {
        locked := false;
        return false;
      }
      table := true;
      var loaded := LoadMigrationsFrom(files);
      LoadedIsEmbedded(files, loaded);
      if loaded.Malformed? {
        locked := false;
        return false;
      }
      var embedded := loaded.migrations;
      forall ms | Embeds(files, ms) ensures ms == embedded { EmbedsOne(files, ms, embedded); }
      if fault.At(6) {
        locked := false;
        return false;
      }
      var verdict := Compare(embedded, history);
      if verdict == ErrSchemaMismatch {
        locked := false;
        return false;
      }
      ok := ApplyPending(embedded, fault);
      NothingAppended(old(history), history, old(schema), schema, embedded);
      locked := false;
    }

    /** Loads, reads, compares, writes nothing. */
    method Verify(files: seq<File>, readFails: bool) returns (v: Startup)
      ensures v.NotLoaded? <==> forall ms :: !Embeds(files, ms)
      ensures v.Unreadable? <==> readFails && exists ms :: Embeds(files, ms)
      ensures v.Checked? ==> forall ms | Embeds(files, ms) ::
                (v.verdict == InStep <==> history == Records(ms)) && (v.verdict == ErrPending <==> history < Records(ms))
    {
      hide Embeds;
      var loaded := LoadMigrationsFrom(files);
      LoadedIsEmbedded(files, loaded);
      if loaded.Malformed? {
        return NotLoaded(loaded.error);
      }
      if readFails {
        return Unreadable;
      }
      var verdict := Compare(loaded.migrations, history);
      forall ms | Embeds(files, ms) ensures ms == loaded.migrations { EmbedsOne(files, ms, loaded.migrations); }
      return Checked(verdict);
    }
  }

  /** What the loader answers, in terms of the set there is. */
  lemma LoadedIsEmbedded(files: seq<File>, r: Loaded)
    requires r.Set? <==>
               (forall f | f in files :: Passes(f)) && multiset(Numbers(MigrationsOf(files))) == multiset(OneTo(|files|))
    requires r.Set? ==> Contiguous(r.migrations) && multiset(r.migrations) == multiset(MigrationsOf(files))
    ensures r.Set? ==> Embeds(files, r.migrations)
    ensures r.Malformed? ==> forall ms :: !Embeds(files, ms)
  {
    hide Passes;
    forall ms | Embeds(files, ms)
      ensures multiset(Numbers(MigrationsOf(files))) == multiset(OneTo(|files|))
    {
      EmbedsMeansNumbered(files, ms);
    }
  }

  lemma NumberIsFree(embedded: seq<Migration>, history: seq<Record>, k: nat)
    requires Contiguous(embedded) && k < |embedded| && history == Records(embedded)[..k]
    ensures forall r | r in history :: r.number != embedded[k].number
  {
    forall r | r in history
      ensures r.number != embedded[k].number
    {
      var i :| 0 <= i < k && history[i] == r;
      assert history[i] == RecordOf(embedded[i]);
    }
  }

  lemma OneMoreRecord(embedded: seq<Migration>, k: nat)
    requires k < |embedded|
    ensures Records(embedded)[..k + 1] == Records(embedded)[..k] + [RecordOf(embedded[k])]
  {
  }

  lemma NothingAppended(before: seq<Record>, after: seq<Record>, ddlBefore: seq<Text>, ddlAfter: seq<Text>, ms: seq<Migration>)
    requires Appended(before, after, ddlBefore, ddlAfter, ms)
    ensures after == before ==> ddlAfter == ddlBefore
  {
  }
}
