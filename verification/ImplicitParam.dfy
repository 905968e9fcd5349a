/** Implicit parameters: global stacks of bindings and of scopes, with defaults that are pushed when
    first read and popped when their scope closes. They implement dynamic scoping. */
module ImplicitParam {
  import opened Options

  /** Parameters are known by number; their values are opaque here. */
  type Param = nat
  type Value = int
  type Defaults = Param -> Value

  /** A value and the number of scopes open when it was pushed. */
  datatype Binding = Binding(value: Value, level: nat)

  // ----------------------------------------------------------------------- dynamic scoping itself

  /** Programs that bind a parameter for the duration of a body, or open a scope around one. */
  datatype Program =
    | Skip
    | Read(param: Param)
    | Assign(param: Param, value: Value)
    | Bind(param: Param, value: Value, body: Program)
    | Scope(body: Program)
    | Seq(first: Program, second: Program)

  /** The parameters with a value other than their default in the current scope. */
  type Env = map<Param, Value>

  function Lookup(e: Env, p: Param, d: Defaults): Value {
    if p in e then e[p] else d(p)
  }

  /** The values read by a program and the environment it leaves: a binding lasts as long as its
      body, and a scope starts from the defaults and leaves no trace. */
  function Eval(c: Program, e: Env, d: Defaults): (Env, seq<Value>) {
    match c
    case Skip => (e, [])
    case Read(p) => (e, [Lookup(e, p, d)])
    case Assign(p, v) => (e[p := v], [])
    case Bind(p, v, body) =>
      var (after, out) := Eval(body, e[p := v], d);
      (after[p := Lookup(e, p, d)], out)
    case Scope(body) => (e, Eval(body, map[], d).1)
    case Seq(first, second) =>
      var (e1, out1) := Eval(first, e, d);
      var (e2, out2) := Eval(second, e1, d);
      (e2, out1 + out2)
  }

  // --------------------------------------------------------------------------- the stack machine

  /** The stack of every parameter, and for every open scope the parameters to pop when it closes. */
  datatype Machine = Machine(stacks: map<Param, seq<Binding>>, scopes: seq<seq<Param>>)

  function Stack(stacks: map<Param, seq<Binding>>, p: Param): seq<Binding> {
    if p in stacks then stacks[p] else []
  }

  function Level(m: Machine): nat { |m.scopes| }

  predicate HasCurrent(m: Machine, p: Param) {
    var s := Stack(m.stacks, p);
    s != [] && s[|s| - 1].level >= Level(m)
  }

  function Push(stacks: map<Param, seq<Binding>>, p: Param, b: Binding): map<Param, seq<Binding>> {
    stacks[p := Stack(stacks, p) + [b]]
  }

  /** Popping an empty stack is undefined. */
  function Pop(stacks: map<Param, seq<Binding>>, p: Param): Option<map<Param, seq<Binding>>> {
    var s := Stack(stacks, p);
    if s == [] then None else Some(stacks[p := s[..|s| - 1]])
  }

  function Deferred(m: Machine): seq<Param> {
    if m.scopes == [] then [] else m.scopes[|m.scopes| - 1]
  }

  /** `value()`: pushes the default unless the innermost scope has a binding already, and if there
      is a scope registers the pop with it. */
  function Touch(m: Machine, p: Param, d: Defaults): (r: Machine)
    ensures HasCurrent(r, p)
  {
    if HasCurrent(m, p) then m
    else
      Machine(Push(m.stacks, p, Binding(d(p), Level(m))),
              if m.scopes == [] then [] else m.scopes[|m.scopes| - 1 := Deferred(m) + [p]])
  }

  function Top(m: Machine, p: Param): Value
    requires Stack(m.stacks, p) != []
  {
    Stack(m.stacks, p)[|Stack(m.stacks, p)| - 1].value
  }

  function SetTop(m: Machine, p: Param, v: Value): Machine
    requires Stack(m.stacks, p) != []
  {
    var s := Stack(m.stacks, p);
    m.(stacks := m.stacks[p := s[|s| - 1 := s[|s| - 1].(value := v)]])
  }

  function PopAll(stacks: map<Param, seq<Binding>>, ps: seq<Param>): Option<map<Param, seq<Binding>>>
    decreases |ps|
  {
    if ps == [] then Some(stacks)
    else
      match Pop(stacks, ps[0])
      case None => None
      case Some(popped) => PopAll(popped, ps[1..])
  }

  function Open(m: Machine): Machine {
    m.(scopes := m.scopes + [[]])
  }

  function Close(m: Machine): Option<Machine>
    requires m.scopes != []
  {
    match PopAll(m.stacks, Deferred(m))
    case None => None
    case Some(stacks) => Some(Machine(stacks, m.scopes[..|m.scopes| - 1]))
  }

  /** Running a program on the machine; None stands for a pop of an empty stack. */
  function Exec(c: Program, m: Machine, d: Defaults): Option<(Machine, seq<Value>)>
    decreases c
  {
    match c
    case Skip => Some((m, []))
    case Read(p) => Some((Touch(m, p, d), [Top(Touch(m, p, d), p)]))
    case Assign(p, v) => Some((SetTop(Touch(m, p, d), p, v), []))
    case Bind(p, v, body) =>
      (match Exec(body, m.(stacks := Push(m.stacks, p, Binding(v, Level(m)))), d)
       case None => None
       case Some((after, out)) =>
         match Pop(after.stacks, p)
         case None => None
         case Some(stacks) => Some((after.(stacks := stacks), out)))
    case Scope(body) =>
      (match Exec(body, Open(m), d)
       case None => None
       case Some((after, out)) =>
         if after.scopes == [] then None
         else
           match Close(after)
           case None => None
           case Some(closed) => Some((closed, out)))
    case Seq(first, second) =>
      match Exec(first, m, d)
      case None => None
      case Some((m1, out1)) =>
        match Exec(second, m1, d)
        case None => None
        case Some((m2, out2)) => Some((m2, out1 + out2))
  }

  // ---------------------------------------------------------------------------------- refinement

  /** No binding belongs to a scope that is not open. */
  ghost predicate WellLevelled(m: Machine) {
    forall p :: forall i :: 0 <= i < |Stack(m.stacks, p)| ==> Stack(m.stacks, p)[i].level <= Level(m)
  }

  /** The top of a stack is the value of the parameter if it belongs to the innermost scope;
      otherwise the parameter has its default. */
  ghost predicate Related(m: Machine, e: Env, d: Defaults) {
    forall p :: Lookup(e, p, d) == if HasCurrent(m, p) then Top(m, p) else d(p)
  }

  /** How far a stack may be changed by a well-nested program: at most the value of a binding of the
      innermost scope differs, or one default of that scope has been added where there was none. */
  ghost predicate StackStep(m: Machine, m': Machine, p: Param) {
    var s, s' := Stack(m.stacks, p), Stack(m'.stacks, p);
    if HasCurrent(m, p) then
      |s'| == |s| && s'[..|s| - 1] == s[..|s| - 1] && s'[|s| - 1].level == s[|s| - 1].level
    else
      s' == s || (|s'| == |s| + 1 && s'[..|s|] == s && s'[|s|].level == Level(m))
  }

  ghost predicate NoDuplicates(ps: seq<Param>) {
    forall i, j :: 0 <= i < j < |ps| ==> ps[i] != ps[j]
  }

  /** The innermost scope has newly registered exactly the parameters whose stacks have grown, each
      of them once; without a scope nothing is registered. */
  ghost predicate Frame(m: Machine, m': Machine, added: seq<Param>) {
    && Level(m') == Level(m)
    && (m.scopes == [] ==> added == [])
    && (m.scopes != [] ==> m'.scopes == m.scopes[|m.scopes| - 1 := Deferred(m) + added])
    && NoDuplicates(added)
    && (forall p :: StackStep(m, m', p))
    && (m.scopes != [] ==> forall p :: p in added <==> |Stack(m'.stacks, p)| == |Stack(m.stacks, p)| + 1)
  }

  lemma FrameComposes(m: Machine, m1: Machine, m2: Machine, a: seq<Param>, b: seq<Param>)
    requires Frame(m, m1, a) && Frame(m1, m2, b)
    ensures Frame(m, m2, a + b)
  {
    forall p ensures StackStep(m, m2, p) {
      StackComposes(m, m1, m2, p);
    }
    assert m.scopes != [] <==> m1.scopes != [];
    forall p ensures !(p in a && p in b) {
      StackComposes(m, m1, m2, p);
      assert p in a ==> |Stack(m1.stacks, p)| == |Stack(m.stacks, p)| + 1;
      assert p in b ==> |Stack(m2.stacks, p)| == |Stack(m1.stacks, p)| + 1;
    }
    NoDuplicatesJoin(a, b);
    if m.scopes != [] {
      assert Deferred(m) + a + b == Deferred(m) + (a + b);
      forall p ensures p in a + b <==> |Stack(m2.stacks, p)| == |Stack(m.stacks, p)| + 1 {
        StackComposes(m, m1, m2, p);
      }
    }
  }

  lemma NoDuplicatesJoin(a: seq<Param>, b: seq<Param>)
    requires NoDuplicates(a) && NoDuplicates(b) && forall p :: !(p in a && p in b)
    ensures NoDuplicates(a + b)
  {
    forall i, j | 0 <= i < j < |a + b| ensures (a + b)[i] != (a + b)[j] {
      if i < |a| <= j {
        assert a[i] in a && b[j - |a|] in b;
      }
    }
  }

  lemma StackComposes(m: Machine, m1: Machine, m2: Machine, p: Param)
    requires StackStep(m, m1, p) && StackStep(m1, m2, p) && Level(m) == Level(m1)
    ensures StackStep(m, m2, p)
    ensures |Stack(m2.stacks, p)| <= |Stack(m.stacks, p)| + 1
    ensures |Stack(m1.stacks, p)| == |Stack(m.stacks, p)| + 1 ==> |Stack(m2.stacks, p)| == |Stack(m1.stacks, p)|
    ensures |Stack(m1.stacks, p)| >= |Stack(m.stacks, p)| && |Stack(m2.stacks, p)| >= |Stack(m1.stacks, p)|
  {
    var s, s1, s2 := Stack(m.stacks, p), Stack(m1.stacks, p), Stack(m2.stacks, p);
    if HasCurrent(m, p) {
      assert HasCurrent(m1, p);
      assert s2[..|s| - 1] == s1[..|s| - 1];
    } else if |s1| == |s| + 1 {
      assert HasCurrent(m1, p);
      assert s2[..|s|] == s1[..|s|];
    }
  }

  lemma TouchFrame(m: Machine, p: Param, d: Defaults)
    requires WellLevelled(m)
    ensures WellLevelled(Touch(m, p, d))
    ensures Frame(m, Touch(m, p, d), if HasCurrent(m, p) || m.scopes == [] then [] else [p])
    ensures forall e :: Related(m, e, d) ==> Related(Touch(m, p, d), e, d)
  {
    var r := Touch(m, p, d);
    if HasCurrent(m, p) {
      FrameNone(m, m);
    } else {
      forall q ensures Stack(r.stacks, q) ==
          if q == p then Stack(m.stacks, p) + [Binding(d(p), Level(m))] else Stack(m.stacks, q) {
      }
    }
  }

  /** Nothing registered, and only values of the innermost scope changed. */
  lemma FrameNone(m: Machine, m': Machine)
    requires m'.scopes == m.scopes
    requires forall p :: StackStep(m, m', p) && |Stack(m'.stacks, p)| == |Stack(m.stacks, p)|
    ensures Frame(m, m', [])
  {
    if m.scopes != [] {
      assert Deferred(m) + [] == Deferred(m);
    }
  }

  lemma SetTopFrame(m: Machine, p: Param, v: Value, e: Env, d: Defaults)
    requires WellLevelled(m) && HasCurrent(m, p) && Related(m, e, d)
    ensures WellLevelled(SetTop(m, p, v)) && Related(SetTop(m, p, v), e[p := v], d)
    ensures Frame(m, SetTop(m, p, v), [])
  {
    var r := SetTop(m, p, v);
    var s := Stack(m.stacks, p);
    forall q ensures Stack(r.stacks, q) == if q == p then s[|s| - 1 := s[|s| - 1].(value := v)] else Stack(m.stacks, q) {
    }
    FrameNone(m, r);
  }

  function Bound(m: Machine, p: Param, v: Value): Machine {
    m.(stacks := Push(m.stacks, p, Binding(v, Level(m))))
  }

  lemma BoundRelated(m: Machine, p: Param, v: Value, e: Env, d: Defaults)
    requires WellLevelled(m) && Related(m, e, d)
    ensures WellLevelled(Bound(m, p, v)) && Related(Bound(m, p, v), e[p := v], d) && HasCurrent(Bound(m, p, v), p)
  {
    var r := Bound(m, p, v);
    forall q ensures Stack(r.stacks, q) ==
        if q == p then Stack(m.stacks, p) + [Binding(v, Level(m))] else Stack(m.stacks, q) {
    }
    forall q ensures Lookup(e[p := v], q, d) == if HasCurrent(r, q) then Top(r, q) else d(q) {
      assert Lookup(e, q, d) == if HasCurrent(m, q) then Top(m, q) else d(q);
      assert q != p ==> Lookup(e[p := v], q, d) == Lookup(e, q, d);
    }
  }

  /** The end of a binding pops exactly what its beginning pushed. */
  lemma Unbound(m: Machine, p: Param, v: Value, after: Machine, added: seq<Param>, e: Env, e': Env, d: Defaults)
    requires WellLevelled(m) && Related(m, e, d)
    requires Frame(Bound(m, p, v), after, added) && WellLevelled(after) && Related(after, e', d)
    ensures var stacks := Pop(after.stacks, p);
            stacks.Some? && var r := after.(stacks := stacks.value);
            Frame(m, r, added) && WellLevelled(r) && Related(r, e'[p := Lookup(e, p, d)], d)
  {
    hide Related, WellLevelled;
    var b := Bound(m, p, v);
    var s := Stack(m.stacks, p);
    BoundStacks(m, p, v);
    assert StackStep(b, after, p);
    assert Stack(after.stacks, p)[..|s|] == s;
    var r := after.(stacks := Pop(after.stacks, p).value);
    forall q ensures Stack(r.stacks, q) == if q == p then s else Stack(after.stacks, q) {
    }
    forall q ensures StackStep(m, r, q)
             ensures q != p ==> |Stack(b.stacks, q)| == |Stack(m.stacks, q)| {
      assert StackStep(b, after, q);
    }
    assert Deferred(b) == Deferred(m);
    assert p !in added;
    UnboundRelated(m, p, after, r, e, e', d);
  }

  lemma BoundStacks(m: Machine, p: Param, v: Value)
    ensures HasCurrent(Bound(m, p, v), p)
    ensures forall q :: Stack(Bound(m, p, v).stacks, q)
                     == if q == p then Stack(m.stacks, p) + [Binding(v, Level(m))] else Stack(m.stacks, q)
  {
  }

  lemma UnboundRelated(m: Machine, p: Param, after: Machine, r: Machine, e: Env, e': Env, d: Defaults)
    requires WellLevelled(m) && Related(m, e, d) && WellLevelled(after) && Related(after, e', d)
    requires Level(r) == Level(m) == Level(after)
    requires forall q :: Stack(r.stacks, q) == if q == p then Stack(m.stacks, p) else Stack(after.stacks, q)
    ensures WellLevelled(r) && Related(r, e'[p := Lookup(e, p, d)], d)
  {
    forall q ensures Lookup(e'[p := Lookup(e, p, d)], q, d) == if HasCurrent(r, q) then Top(r, q) else d(q) {
      assert Lookup(e, q, d) == if HasCurrent(m, q) then Top(m, q) else d(q);
      assert Lookup(e', q, d) == if HasCurrent(after, q) then Top(after, q) else d(q);
    }
  }

  lemma OpenRelated(m: Machine, d: Defaults)
    requires WellLevelled(m)
    ensures WellLevelled(Open(m)) && Related(Open(m), map[], d)
    ensures forall p :: !HasCurrent(Open(m), p)
  {
    forall p ensures !HasCurrent(Open(m), p) {
      var s := Stack(m.stacks, p);
      if s != [] {
        assert s[|s| - 1].level <= Level(m);
      }
    }
  }

  lemma {:induction false} PopAllStacks(stacks: map<Param, seq<Binding>>, ps: seq<Param>)
    requires NoDuplicates(ps) && forall p :: p in ps ==> Stack(stacks, p) != []
    ensures PopAll(stacks, ps).Some?
    ensures forall p :: Stack(PopAll(stacks, ps).value, p)
              == if p in ps then Stack(stacks, p)[..|Stack(stacks, p)| - 1] else Stack(stacks, p)
    decreases |ps|
  {
    if ps != [] {
      var popped := Pop(stacks, ps[0]).value;
      forall p ensures Stack(popped, p) ==
          if p == ps[0] then Stack(stacks, p)[..|Stack(stacks, p)| - 1] else Stack(stacks, p) {
      }
      forall p ensures p in ps <==> p == ps[0] || p in ps[1..]
               ensures p in ps[1..] ==> p != ps[0] {
      }
      PopAllStacks(popped, ps[1..]);
    }
  }

  /** Closing a scope puts every stack back to what it was when the scope was opened. */
  lemma CloseRestores(m: Machine, after: Machine, added: seq<Param>)
    requires WellLevelled(m) && Frame(Open(m), after, added)
    ensures after.scopes != [] && Close(after).Some?
    ensures Close(after).value.scopes == m.scopes
    ensures forall p :: Stack(Close(after).value.stacks, p) == Stack(m.stacks, p)
    ensures NoDuplicates(Deferred(after))
  {
    OpenRelated(m, p => 0);
    var o := Open(m);
    assert Deferred(after) == added;
    forall p | p in added ensures Stack(after.stacks, p) != [] {
    }
    PopAllStacks(after.stacks, added);
    assert after.scopes[..|after.scopes| - 1] == m.scopes;
    forall p ensures Stack(Close(after).value.stacks, p) == Stack(m.stacks, p) {
      assert StackStep(o, after, p);
      var s, s' := Stack(m.stacks, p), Stack(after.stacks, p);
      assert s == s[..|s|];
      assert |s'| == |s| + 1 ==> s'[..|s'| - 1] == s;
    }
  }

  lemma SameStacks(m: Machine, m': Machine, e: Env, d: Defaults)
    requires WellLevelled(m) && Related(m, e, d)
    requires m'.scopes == m.scopes && forall p :: Stack(m'.stacks, p) == Stack(m.stacks, p)
    ensures WellLevelled(m') && Related(m', e, d) && Frame(m, m', [])
  {
    forall p ensures HasCurrent(m', p) <==> HasCurrent(m, p)
             ensures StackStep(m, m', p) {
    }
    FrameNone(m, m');
  }

  /** Every well-nested program runs on the stack machine without popping an empty stack, reads
      what dynamic scoping says, and changes the stacks and the registered pops only as Frame says. */
  lemma {:induction false} Refines(c: Program, m: Machine, e: Env, d: Defaults) returns (added: seq<Param>)
    requires WellLevelled(m) && Related(m, e, d)
    ensures Exec(c, m, d).Some?
    ensures var (m', out) := Exec(c, m, d).value;
            && out == Eval(c, e, d).1 && Related(m', Eval(c, e, d).0, d)
            && WellLevelled(m') && Frame(m, m', added)
    decreases c
  {
    hide WellLevelled, Related, Frame;
    match c
    case Skip =>
      added := [];
      SameStacks(m, m, e, d);
    case Read(p) =>
      added := if HasCurrent(m, p) || m.scopes == [] then [] else [p];
      TouchFrame(m, p, d);
      RelatedAt(Touch(m, p, d), e, d, p);
    case Assign(p, v) =>
      added := if HasCurrent(m, p) || m.scopes == [] then [] else [p];
      TouchFrame(m, p, d);
      SetTopFrame(Touch(m, p, d), p, v, e, d);
      FrameComposes(m, Touch(m, p, d), SetTop(Touch(m, p, d), p, v), added, []);
      assert added + [] == added;
    case Bind(p, v, body) =>
      BoundRelated(m, p, v, e, d);
      added := Refines(body, Bound(m, p, v), e[p := v], d);
      Unbound(m, p, v, Exec(body, Bound(m, p, v), d).value.0, added, e, Eval(body, e[p := v], d).0, d);
    case Scope(body) =>
      OpenRelated(m, d);
      var inner := Refines(body, Open(m), map[], d);
      var after := Exec(body, Open(m), d).value.0;
      CloseRestores(m, after, inner);
      SameStacks(m, Close(after).value, e, d);
      added := [];
    case Seq(first, second) =>
      var a := Refines(first, m, e, d);
      var m1 := Exec(first, m, d).value.0;
      var b := Refines(second, m1, Eval(first, e, d).0, d);
      FrameComposes(m, m1, Exec(second, m1, d).value.0, a, b);
      added := a + b;
  }

  lemma RelatedAt(m: Machine, e: Env, d: Defaults, p: Param)
    requires Related(m, e, d) && HasCurrent(m, p)
    ensures Top(m, p) == Lookup(e, p, d)
  {
  }

  const INITIAL := Machine(map[], [])

  /** From the initial state: a program reads the values that dynamic scoping prescribes. */
  lemma ReadsAreDynamicallyScoped(c: Program, d: Defaults)
    ensures Exec(c, INITIAL, d).Some? && Exec(c, INITIAL, d).value.1 == Eval(c, map[], d).1
  {
    var added := Refines(c, INITIAL, map[], d);
  }

  /** A scope, wherever it stands, restores all stacks and the registered pops, and inside it each
      parameter is registered at most once. */
  lemma ScopeRestores(body: Program, m: Machine, e: Env, d: Defaults)
    requires WellLevelled(m) && Related(m, e, d)
    ensures Exec(body, Open(m), d).Some? && NoDuplicates(Deferred(Exec(body, Open(m), d).value.0))
    ensures Exec(Scope(body), m, d).Some?
    ensures var after := Exec(Scope(body), m, d).value.0;
            after.scopes == m.scopes && forall p :: Stack(after.stacks, p) == Stack(m.stacks, p)
  {
    hide WellLevelled, Related, Frame, PopAll, HasCurrent, Eval, Stack, NoDuplicates, Top;
    OpenRelated(m, d);
    var inner := Refines(body, Open(m), map[], d);
    CloseRestores(m, Exec(body, Open(m), d).value.0, inner);
  }

  // ---------------------------------------------------------------------------- the static state

  class ImplicitState {
    var stacks: map<Param, seq<Binding>>
    var scopes: seq<seq<Param>>

    function State(): Machine
      reads this
    {
      Machine(stacks, scopes)
    }

    constructor ()
      ensures State() == INITIAL
    {
      stacks, scopes := map[], [];
    }

    /** Construction of an ImplicitParam. */
    method BeginBinding(p: Param, v: Value)
      modifies this
      ensures State() == Bound(old(State()), p, v)
    {
      stacks := stacks[p := Stack(stacks, p) + [Binding(v, |scopes|)]];
    }

    /** Destruction of an ImplicitParam. */
    method EndBinding(p: Param)
      requires Pop(stacks, p).Some?
      modifies this
      ensures State() == old(State()).(stacks := Pop(old(stacks), p).value)
    {
      stacks := stacks[p := Stack(stacks, p)[..|Stack(stacks, p)| - 1]];
    }

    method Value(p: Param, d: Defaults) returns (v: Value)
      modifies this
      ensures State() == Touch(old(State()), p, d) && v == Top(State(), p)
    {
      var scopeLevel := |scopes|;
      var s := Stack(stacks, p);
      if s == [] || s[|s| - 1].level < scopeLevel {
        stacks := stacks[p := s + [Binding(d(p), |scopes|)]];
        if scopes != [] {
          scopes := scopes[|scopes| - 1 := scopes[|scopes| - 1] + [p]];
        }
      }
      v := Stack(stacks, p)[|Stack(stacks, p)| - 1].value;
    }

    /** Assignment through the reference that `value()` returns. */
    method AssignValue(p: Param, v: Value, d: Defaults)
      modifies this
      ensures State() == SetTop(Touch(old(State()), p, d), p, v)
    {
      var current := Value(p, d);
      var s := Stack(stacks, p);
      stacks := stacks[p := s[|s| - 1 := s[|s| - 1].(value := v)]];
    }

    /** Construction of an ImplicitScope. */
    method OpenScope()
      modifies this
      ensures State() == Open(old(State()))
    {
      scopes := scopes + [[]];
    }

    /** Destruction of an ImplicitScope: the registered pops, then that of the scope. */
    method CloseScope()
      requires scopes != [] && Close(State()).Some?
      modifies this
      ensures State() == Close(old(State())).value
    {
      var top := scopes[|scopes| - 1];
      for i := 0 to |top|
        invariant scopes == old(scopes)
        invariant PopAll(stacks, top[i..]) == PopAll(old(stacks), top)
      {
        assert top[i..][1..] == top[i + 1..];
        EndBinding(top[i]);
      }
      scopes := scopes[..|scopes| - 1];
    }

    /** Runs a program with its bindings and scopes as objects on the call stack. */
    method Run(c: Program, d: Defaults) returns (out: seq<Value>)
      requires Exec(c, State(), d).Some?
      modifies this
      ensures Exec(c, old(State()), d) == Some((State(), out))
      decreases c
    {
      match c {
        case Skip => out := [];
        case Read(p) =>
          var v := Value(p, d);
          out := [v];
        case Assign(p, v) =>
          AssignValue(p, v, d);
          out := [];
        case Bind(p, v, body) =>
          BeginBinding(p, v);
          out := Run(body, d);
          EndBinding(p);
        case Scope(body) =>
          OpenScope();
          out := Run(body, d);
          CloseScope();
        case Seq(first, second) =>
          var out1 := Run(first, d);
          var out2 := Run(second, d);
          out := out1 + out2;
      }
    }
  }

  /** A whole program run on fresh static state. */
  method RunProgram(c: Program, d: Defaults) returns (out: seq<Value>)
    ensures out == Eval(c, map[], d).1
  {
    var state := new ImplicitState();
    ReadsAreDynamicallyScoped(c, d);
    out := state.Run(c, d);
  }
}
