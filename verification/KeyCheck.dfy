/** The streaming check on keys: a stack of frames against a recursive statement over trees. */
module KeyCheck {
  import opened Prelude
  import opened Json

  /** Every key the format defines. */
  const FIELDS: set<Text> := {
    "subset_version", "vectors", "name", "statement", "verdict", "scope", "because",
    "operation", "schema", "relation", "columns_written", "predicate"}

  /** At every level of every object the keys are pairwise distinct and known to the format. */
  predicate GoodKeys(v: Value)
    decreases v
  {
    match v
    case JArray(items) => forall i | 0 <= i < |items| :: GoodKeys(items[i])
    case JObject(ms) =>
      && (forall i | 0 <= i < |ms| :: ms[i].key in FIELDS)
      && (forall i, j | 0 <= i < j < |ms| :: ms[i].key != ms[j].key)
      && (forall i | 0 <= i < |ms| :: GoodKeys(ms[i].value))
    case _ => true
  }

  datatype Frame = Frame(isObject: bool, expectKey: bool, seen: set<Text>)

  /** `Panicked` is a pop from an empty stack, which Go would end with a run-time error. */
  datatype Verdict = Accepted | UnknownField(key: Text) | DuplicateKey(key: Text) | SyntaxError | Panicked

  datatype Step = Go(stack: seq<Frame>) | Stop(verdict: Verdict)

  function Consumed(stack: seq<Frame>): seq<Frame> {
    if stack != [] && stack[|stack| - 1].isObject then stack[|stack| - 1 := stack[|stack| - 1].(expectKey := true)] else stack
  }

  predicate ExpectsKey(stack: seq<Frame>) {
    stack != [] && stack[|stack| - 1].isObject && stack[|stack| - 1].expectKey
  }

  function Take(stack: seq<Frame>, token: Token): Step {
    match token
    case OpenObject => Go(stack + [Frame(true, true, {})])
    case OpenArray => Go(stack + [Frame(false, false, {})])
    case CloseObject => if stack == [] then Stop(Panicked) else Go(Consumed(stack[..|stack| - 1]))
    case CloseArray => if stack == [] then Stop(Panicked) else Go(Consumed(stack[..|stack| - 1]))
    case _ =>
      if !ExpectsKey(stack) then Go(Consumed(stack))
      else
        var key := if token.Str? then token.s else "";
        var top := stack[|stack| - 1];
        if key !in FIELDS then Stop(UnknownField(key))
        else if key in top.seen then Stop(DuplicateKey(key))
        else Go(stack[|stack| - 1 := top.(seen := top.seen + {key}, expectKey := false)])
  }

  /** The verdict on the tokens still to come; `clean` says whether the stream then ends or breaks. */
  function Machine(stack: seq<Frame>, tokens: seq<Token>, clean: bool): Verdict
    decreases |tokens|
  {
    if tokens == [] then (if clean then Accepted else SyntaxError)
    else
      match Take(stack, tokens[0])
      case Stop(v) => v
      case Go(next) => Machine(next, tokens[1..], clean)
  }

  /** The loop of the source. */
  method CheckKeys(tokens: seq<Token>, clean: bool) returns (v: Verdict)
    ensures v == Machine([], tokens, clean)
  {
    var stack: seq<Frame> := [];
    var i := 0;
    assert tokens[0..] == tokens;
    while i < |tokens|
      invariant 0 <= i <= |tokens|
      invariant Machine(stack, tokens[i..], clean) == Machine([], tokens, clean)
    {
      var token := tokens[i];
      assert tokens[i..][1..] == tokens[i + 1..];
      i := i + 1;
      if token.OpenObject? {
        stack := stack + [Frame(true, true, {})];
      } else if token.OpenArray? {
        stack := stack + [Frame(false, false, {})];
      } else if token.CloseObject? || token.CloseArray? {
        if stack == [] {
          return Panicked;
        }
        stack := stack[..|stack| - 1];
        stack := Consumed(stack);
      } else {
        var top := |stack| - 1;
        if top >= 0 && stack[top].isObject && stack[top].expectKey {
          var key := if token.Str? then token.s else "";
          if key !in FIELDS {
            return UnknownField(key);
          }
          if key in stack[top].seen {
            return DuplicateKey(key);
          }
          stack := stack[top := stack[top].(seen := stack[top].seen + {key}, expectKey := false)];
        } else {
          stack := Consumed(stack);
        }
      }
    }
    v := if clean then Accepted else SyntaxError;
  }

  // ---------------------------------------------------------------- the machine against the trees

  predicate KeyError(v: Verdict) {
    v.UnknownField? || v.DuplicateKey?
  }

  /** The members still to come, given the keys seen so far. */
  predicate GoodMembers(ms: seq<Member>, seen: set<Text>) {
    ms == [] || (ms[0].key in FIELDS && ms[0].key !in seen && GoodKeys(ms[0].value) && GoodMembers(ms[1..], seen + {ms[0].key}))
  }

  lemma {:induction false} GoodMembersMeans(ms: seq<Member>, seen: set<Text>)
    ensures GoodMembers(ms, seen) <==>
              && (forall i | 0 <= i < |ms| :: ms[i].key in FIELDS && ms[i].key !in seen && GoodKeys(ms[i].value))
              && (forall i, j | 0 <= i < j < |ms| :: ms[i].key != ms[j].key)
  {
    hide GoodKeys;
    if ms != [] {
      var rest, seen' := ms[1..], seen + {ms[0].key};
      GoodMembersMeans(rest, seen');
      assert forall i | 0 <= i < |rest| :: rest[i] == ms[i + 1];
      if GoodMembers(ms, seen) {
        forall i, j | 0 <= i < j < |ms| ensures ms[i].key != ms[j].key {
          assert ms[j] == rest[j - 1];
          if i > 0 { assert ms[i] == rest[i - 1]; }
        }
        forall i | 0 <= i < |ms| ensures ms[i].key in FIELDS && ms[i].key !in seen && GoodKeys(ms[i].value) {
          if i > 0 { assert ms[i] == rest[i - 1]; }
        }
      }
    }
  }

  lemma MachineStep(stack: seq<Frame>, token: Token, rest: seq<Token>, clean: bool)
    ensures Machine(stack, [token] + rest, clean)
            == var step := Take(stack, token);
               if step.Stop? then step.verdict else Machine(step.stack, rest, clean)
  {
    assert ([token] + rest)[1..] == rest;
  }

  /** One value, where a value is due: the machine goes on as if it had been consumed, or finds a bad key in it. */
  lemma {:induction false} MachineReadsValue(stack: seq<Frame>, v: Value, rest: seq<Token>, clean: bool)
    requires !ExpectsKey(stack)
    ensures GoodKeys(v) ==> Machine(stack, TokensOf(v) + rest, clean) == Machine(Consumed(stack), rest, clean)
    ensures !GoodKeys(v) ==> KeyError(Machine(stack, TokensOf(v) + rest, clean))
    decreases v, 0
  {
    hide Machine, FIELDS;
    match v
    case JArray(items) =>
      var tail := TokensOfAll(items) + ([CloseArray] + rest);
      assert TokensOf(v) + rest == [OpenArray] + tail;
      MachineStep(stack, OpenArray, tail, clean);
      MachineReadsItems(stack, items, rest, clean);
    case JObject(ms) =>
      var tail := TokensOfMembers(ms) + ([CloseObject] + rest);
      assert TokensOf(v) + rest == [OpenObject] + tail;
      MachineStep(stack, OpenObject, tail, clean);
      MachineReadsMembers(stack, ms, {}, rest, clean);
      GoodMembersMeans(ms, {});
    case JString(s) => MachineStep(stack, Str(s), rest, clean);
    case _ => MachineStep(stack, Scalar, rest, clean);
  }

  lemma {:induction false} MachineReadsItems(base: seq<Frame>, items: seq<Value>, rest: seq<Token>, clean: bool)
    requires !ExpectsKey(base)
    ensures var stack := base + [Frame(false, false, {})];
            var good := forall i | 0 <= i < |items| :: GoodKeys(items[i]);
            var verdict := Machine(stack, TokensOfAll(items) + ([CloseArray] + rest), clean);
            if good then verdict == Machine(Consumed(base), rest, clean) else KeyError(verdict)
    decreases items, 1
  {
    hide Machine, FIELDS, GoodKeys;
    var stack := base + [Frame(false, false, {})];
    var tail := [CloseArray] + rest;
    if items == [] {
      assert TokensOfAll(items) + tail == tail;
      MachineStep(stack, CloseArray, rest, clean);
      assert stack[..|stack| - 1] == base;
    } else {
      var others := items[1..];
      assert TokensOfAll(items) + tail == TokensOf(items[0]) + (TokensOfAll(others) + tail);
      MachineReadsValue(stack, items[0], TokensOfAll(others) + tail, clean);
      MachineReadsItems(base, others, rest, clean);
      assert forall i | 1 <= i < |items| :: items[i] == others[i - 1];
      assert forall i | 0 <= i < |others| :: others[i] == items[i + 1];
    }
  }

  lemma {:induction false} MachineReadsMembers(base: seq<Frame>, ms: seq<Member>, seen: set<Text>, rest: seq<Token>, clean: bool)
    requires !ExpectsKey(base)
    ensures var verdict := Machine(base + [Frame(true, true, seen)], TokensOfMembers(ms) + ([CloseObject] + rest), clean);
            if GoodMembers(ms, seen) then verdict == Machine(Consumed(base), rest, clean) else KeyError(verdict)
    decreases ms, 1
  {
    hide Machine, FIELDS, GoodKeys;
    var stack := base + [Frame(true, true, seen)];
    var tail := [CloseObject] + rest;
    if ms == [] {
      assert TokensOfMembers(ms) + tail == tail;
      MachineStep(stack, CloseObject, rest, clean);
      assert stack[..|stack| - 1] == base;
    } else {
      var key, value, others := ms[0].key, ms[0].value, TokensOfMembers(ms[1..]) + tail;
      assert TokensOfMembers(ms) + tail == [Str(key)] + (TokensOf(value) + others);
      MachineStep(stack, Str(key), TokensOf(value) + others, clean);
      if key in FIELDS && key !in seen {
        var stack' := base + [Frame(true, false, seen + {key})];
        assert Take(stack, Str(key)) == Go(stack');
        MachineReadsValue(stack', value, others, clean);
        assert Consumed(stack') == base + [Frame(true, true, seen + {key})];
        MachineReadsMembers(base, ms[1..], seen + {key}, rest, clean);
      }
    }
  }

  /**
   On the token stream of any sequence of documents, nested to any depth, the check accepts exactly
   when at every level of every document the keys are distinct and known; otherwise it names a bad key.
   */
  lemma {:induction false} CheckKeysIsExact(docs: seq<Value>)
    ensures var verdict := Machine([], TokensOfAll(docs), true);
            if forall i | 0 <= i < |docs| :: GoodKeys(docs[i]) then verdict == Accepted else KeyError(verdict)
  {
    hide GoodKeys, FIELDS;
    if docs != [] {
      MachineReadsValue([], docs[0], TokensOfAll(docs[1..]), true);
      CheckKeysIsExact(docs[1..]);
      assert forall i | 1 <= i < |docs| :: docs[i] == docs[1..][i - 1];
      assert forall i | 0 <= i < |docs[1..]| :: docs[1..][i] == docs[i + 1];
    }
  }

  /** A verdict reached in mid-stream stands whatever follows. */
  lemma {:induction false} VerdictStands(stack: seq<Frame>, a: seq<Token>, b: seq<Token>, clean: bool, clean': bool)
    requires Machine(stack, a, clean) !in {Accepted, SyntaxError}
    ensures Machine(stack, a + b, clean') == Machine(stack, a, clean)
    decreases |a|
  {
    assert (a + b)[1..] == a[1..] + b;
    match Take(stack, a[0])
    case Stop(_) =>
    case Go(next) => VerdictStands(next, a[1..], b, clean, clean');
  }

  /** However the stream breaks off, the stack is never popped empty. */
  lemma CheckKeysNeverPanics(docs: seq<Value>, tokens: seq<Token>, clean: bool)
    requires tokens <= TokensOfAll(docs)
    ensures Machine([], tokens, clean) != Panicked
  {
    if Machine([], tokens, clean) == Panicked {
      VerdictStands([], tokens, TokensOfAll(docs)[|tokens|..], clean, true);
      assert tokens + TokensOfAll(docs)[|tokens|..] == TokensOfAll(docs);
      CheckKeysIsExact(docs);
      assert false;
    }
  }
}
