/**
  The class table of the Cool semantic analyser.

  The table maps class names to class declarations.  It is seeded with the
  five built-in classes, then the declared classes are checked and inserted
  one by one, then the presence of `Main` is required, and finally every
  parent chain is walked with a tortoise/hare pair of pointers to find
  undefined parents and inheritance cycles.  Every failed check reports one
  error and ends the construction.
*/
module Semant {
  import opened Wrappers

  /** Interned identifiers are modelled by their text. */
  type Symbol = string

  const Object: Symbol := "Object"
  const IO: Symbol := "IO"
  const Int: Symbol := "Int"
  const Bool: Symbol := "Bool"
  const Str: Symbol := "String"
  const Main: Symbol := "Main"
  const SelfType: Symbol := "SELF_TYPE"
  /** The parent of Object: a name no user-defined class can have. */
  const NoClass: Symbol := "_no_class"
  const PrimSlot: Symbol := "_prim_slot"
  const Val: Symbol := "_val"
  const StrField: Symbol := "_str_field"
  const Arg: Symbol := "arg"
  const Arg2: Symbol := "arg2"
  const BasicFile: Symbol := "<basic class>"

  datatype Formal = Formal(name: Symbol, typeDecl: Symbol)

  /** A feature of a class; method bodies and attribute initialisers are not inspected here. */
  datatype Feature =
    | Method(name: Symbol, formals: seq<Formal>, returnType: Symbol)
    | Attr(name: Symbol, typeDecl: Symbol)

  datatype Class = Class(name: Symbol, parent: Symbol, features: seq<Feature>, filename: Symbol)

  /** The inheritance graph: class name to class declaration. */
  type Graph = map<Symbol, Class>

  /** Every entry is stored under its own name. */
  ghost predicate Keyed(g: Graph) {
    forall c :: c in g ==> g[c].name == c
  }

  // ---------------------------------------------------------------------
  // Built-in classes
  // ---------------------------------------------------------------------

  const ObjectClass: Class :=
    Class(Object, NoClass,
      [Method("abort", [], Object),
       Method("type_name", [], Str),
       Method("copy", [], SelfType)],
      BasicFile)

  const IOClass: Class :=
    Class(IO, Object,
      [Method("out_string", [Formal(Arg, Str)], SelfType),
       Method("out_int", [Formal(Arg, Int)], SelfType),
       Method("in_string", [], Str),
       Method("in_int", [], Int)],
      BasicFile)

  const IntClass: Class := Class(Int, Object, [Attr(Val, PrimSlot)], BasicFile)

  const BoolClass: Class := Class(Bool, Object, [Attr(Val, PrimSlot)], BasicFile)

  const StrClass: Class :=
    Class(Str, Object,
      [Attr(Val, Int),
       Attr(StrField, PrimSlot),
       Method("length", [], Int),
       Method("concat", [Formal(Arg, Str)], Str),
       Method("substr", [Formal(Arg, Int), Formal(Arg2, Int)], Str)],
      BasicFile)

  /** The graph holding exactly the five built-in classes. */
  function BasicGraph(): (g: Graph)
    ensures g.Keys == {Object, IO, Int, Bool, Str}
    ensures Keyed(g)
    ensures g[Object].parent == NoClass && NoClass !in g
    ensures forall c :: c in g && c != Object ==> g[c].parent == Object
  {
    map[Object := ObjectClass, IO := IOClass, Int := IntClass, Bool := BoolClass, Str := StrClass]
  }

  /** The fixed signatures of the built-in classes. */
  lemma BasicSignatures()
    ensures var g := BasicGraph();
      && g[Object].features ==
           [Method("abort", [], Object), Method("type_name", [], Str), Method("copy", [], SelfType)]
      && g[IO].features ==
           [Method("out_string", [Formal(Arg, Str)], SelfType), Method("out_int", [Formal(Arg, Int)], SelfType),
            Method("in_string", [], Str), Method("in_int", [], Int)]
      && g[Int].features == [Attr(Val, PrimSlot)]
      && g[Bool].features == [Attr(Val, PrimSlot)]
      && g[Str].features ==
           [Attr(Val, Int), Attr(StrField, PrimSlot), Method("length", [], Int),
            Method("concat", [Formal(Arg, Str)], Str),
            Method("substr", [Formal(Arg, Int), Formal(Arg2, Int)], Str)]
  {
  }

  // ---------------------------------------------------------------------
  // Checking the declared classes
  // ---------------------------------------------------------------------

  datatype DeclError =
    | Redefined(name: Symbol)
    | InheritsItself(name: Symbol)
    | InheritsBasic(name: Symbol, parent: Symbol)

  /** The checks applied to one declared class, in the order the constructor applies them. */
  function Verdict(known: set<Symbol>, c: Class): (r: Option<DeclError>)
    ensures r == None <==>
      c.name !in known && c.name != c.parent && c.parent !in {Bool, Int, Str}
    ensures c.name in known ==> r == Some(Redefined(c.name))
  {
    if c.name in known then Some(Redefined(c.name))
    else if c.name == c.parent then Some(InheritsItself(c.name))
    else if c.parent == Bool || c.parent == Int || c.parent == Str then Some(InheritsBasic(c.name, c.parent))
    else None
  }

  /** The state reached by the declaration loop: every class accepted, or the first rejection. */
  datatype Declared =
    | Accepted(graph: Graph, mainPresent: bool)
    | Rejected(graph: Graph, error: DeclError)

  /** Inserts the declared classes in order into `g`, stopping at the first rejected one. */
  function Declare(g: Graph, classes: seq<Class>, mainPresent: bool): (r: Declared)
    decreases |classes|
    ensures g.Keys <= r.graph.Keys
    ensures forall x :: x in g ==> r.graph[x] == g[x]
    ensures Keyed(g) ==> Keyed(r.graph)
  {
    if classes == [] then Accepted(g, mainPresent)
    else
      var c := classes[0];
      match Verdict(g.Keys, c)
      case Some(e) => Rejected(g, e)
      case None => Declare(g[c.name := c], classes[1..], mainPresent || c.name == Main)
  }

  /** The classes of a declaration list, keyed by name. */
  function Table(classes: seq<Class>): map<Symbol, Class> {
    if classes == [] then map[] else map[classes[0].name := classes[0]] + Table(classes[1..])
  }

  function NamesOf(classes: seq<Class>): set<Symbol> {
    set c | c in classes :: c.name
  }

  lemma {:induction false} TableKeys(classes: seq<Class>)
    ensures Table(classes).Keys == NamesOf(classes)
  {
    if classes != [] {
      TableKeys(classes[1..]);
      assert classes == [classes[0]] + classes[1..];
      assert NamesOf(classes) == {classes[0].name} + NamesOf(classes[1..]);
    }
  }

  lemma InsertThenUnion(g: Graph, c: Class, t: map<Symbol, Class>)
    ensures g[c.name := c] + t == g + (map[c.name := c] + t)
  {
  }

  lemma NamesCons(classes: seq<Class>)
    requires classes != []
    ensures NamesOf(classes) == {classes[0].name} + NamesOf(classes[1..])
  {
    assert classes == [classes[0]] + classes[1..];
    forall x | x in NamesOf(classes) ensures x in {classes[0].name} + NamesOf(classes[1..]) {
      var k :| k in classes && k.name == x;
      if k != classes[0] {
        assert k in classes[1..];
      }
    }
  }

  /** Class `i` of the list passes its checks against the classes accepted before it. */
  ghost predicate Passes(g: Graph, classes: seq<Class>, i: nat)
    requires i < |classes|
  {
    Verdict((g + Table(classes[..i])).Keys, classes[i]) == None
  }

  lemma TableStep(g: Graph, classes: seq<Class>, i: nat)
    requires 0 < i <= |classes|
    ensures g + Table(classes[..i]) == g[classes[0].name := classes[0]] + Table(classes[1..][..i - 1])
  {
    var c := classes[0];
    assert classes[..i] == [c] + classes[1..][..i - 1];
    assert classes[..i][1..] == classes[1..][..i - 1];
    assert Table(classes[..i]) == map[c.name := c] + Table(classes[1..][..i - 1]);
  }

  lemma PassesStep(g: Graph, classes: seq<Class>, i: nat)
    requires 0 < i < |classes|
    ensures Passes(g, classes, i) == Passes(g[classes[0].name := classes[0]], classes[1..], i - 1)
  {
    TableStep(g, classes, i);
    assert classes[i] == classes[1..][i - 1];
  }

  lemma PassesFirst(g: Graph, classes: seq<Class>)
    requires 0 < |classes|
    ensures Passes(g, classes, 0) == (Verdict(g.Keys, classes[0]) == None)
  {
    assert classes[..0] == [];
    assert g + Table(classes[..0]) == g;
  }

  /**
    The declaration loop accepts every class exactly when each one passes its
    checks against the built-ins and the classes before it.
  */
  lemma {:induction false} DeclareAccepted(g: Graph, classes: seq<Class>, m: bool)
    ensures Declare(g, classes, m).Accepted? <==>
      forall i :: 0 <= i < |classes| ==> Passes(g, classes, i)
    decreases |classes|
  {
    if classes != [] {
      var c := classes[0];
      var rest := classes[1..];
      PassesFirst(g, classes);
      if Verdict(g.Keys, c) == None {
        var g' := g[c.name := c];
        DeclareAccepted(g', rest, m || c.name == Main);
        forall i | 0 < i < |classes| ensures Passes(g, classes, i) == Passes(g', rest, i - 1) {
          PassesStep(g, classes, i);
        }
        if !Declare(g, classes, m).Accepted? {
          var i :| 0 <= i < |rest| && !Passes(g', rest, i);
          assert !Passes(g, classes, i + 1);
        } else {
          forall i | 0 <= i < |classes| ensures Passes(g, classes, i) {
            if i > 0 {
              assert Passes(g', rest, i - 1);
            }
          }
        }
      }
    }
  }

  /**
    When every class is accepted the graph holds all of them, and `Main` is
    present exactly when some class is named `Main`.
  */
  lemma {:induction false} DeclareAcceptedGraph(g: Graph, classes: seq<Class>, m: bool)
    requires Declare(g, classes, m).Accepted?
    ensures Declare(g, classes, m).graph == g + Table(classes)
    ensures Declare(g, classes, m).mainPresent == (m || Main in NamesOf(classes))
    decreases |classes|
  {
    if classes == [] {
      assert g + Table(classes) == g;
    } else {
      var c := classes[0];
      var rest := classes[1..];
      DeclareAcceptedGraph(g[c.name := c], rest, m || c.name == Main);
      InsertThenUnion(g, c, Table(rest));
      NamesCons(classes);
    }
  }

  /**
    When class `i` is the first to fail its checks, the loop stops there with
    the error of that check and the graph holding exactly the classes before it.
  */
  lemma {:induction false} DeclareRejected(g: Graph, classes: seq<Class>, m: bool, i: nat)
    requires i < |classes|
    requires forall j :: 0 <= j < i ==> Passes(g, classes, j)
    requires !Passes(g, classes, i)
    ensures Declare(g, classes, m) ==
      Rejected(g + Table(classes[..i]), Verdict((g + Table(classes[..i])).Keys, classes[i]).value)
    decreases i
  {
    var c := classes[0];
    var rest := classes[1..];
    PassesFirst(g, classes);
    assert classes[..0] == [];
    assert g + Table(classes[..0]) == g;
    if i > 0 {
      var g' := g[c.name := c];
      forall j | 0 <= j < i - 1 ensures Passes(g', rest, j) {
        PassesStep(g, classes, j + 1);
      }
      PassesStep(g, classes, i);
      TableStep(g, classes, i);
      assert classes[i] == rest[i - 1];
      DeclareRejected(g', rest, m || c.name == Main, i - 1);
    }
  }

  // ---------------------------------------------------------------------
  // Parent chains
  // ---------------------------------------------------------------------

  /** One parent step; Object and names outside the graph are fixed points. */
  function Step(g: Graph, c: Symbol): Symbol {
    if c in g && c != Object then g[c].parent else c
  }

  /** The class reached from `c` after `k` parent steps. */
  function Ancestor(g: Graph, c: Symbol, k: nat): Symbol
    decreases k
  {
    if k == 0 then c else Step(g, Ancestor(g, c, k - 1))
  }

  /** The first `k + 1` classes of the chain from `c` are all in the graph. */
  ghost predicate ChainWithin(g: Graph, c: Symbol, k: nat) {
    forall r: nat :: r <= k ==> Ancestor(g, c, r) in g
  }

  /** The chain from `c` reaches Object through classes of the graph. */
  ghost predicate ReachesRoot(g: Graph, c: Symbol) {
    exists k: nat :: Ancestor(g, c, k) == Object && ChainWithin(g, c, k)
  }

  /** The chain from `c` runs into a name that is not in the graph. */
  ghost predicate Dangles(g: Graph, c: Symbol) {
    exists k: nat :: Ancestor(g, c, k) !in g
  }

  /** The chain from `c` stays in the graph and never meets Object. */
  ghost predicate Cycles(g: Graph, c: Symbol) {
    forall k: nat :: Ancestor(g, c, k) in g && Ancestor(g, c, k) != Object
  }

  /** `x` lies on the chain from `c`. */
  ghost predicate OnChain(g: Graph, c: Symbol, x: Symbol) {
    exists k: nat :: Ancestor(g, c, k) == x
  }

  /** Every class other than Object reaches Object. */
  ghost predicate AllReachRoot(g: Graph) {
    forall c :: c in g && c != Object ==> ReachesRoot(g, c)
  }

  lemma {:induction false} RootIsFixed(g: Graph, c: Symbol, k: nat, k': nat)
    requires Ancestor(g, c, k) == Object && k <= k'
    ensures Ancestor(g, c, k') == Object
    decreases k'
  {
    if k' > k {
      RootIsFixed(g, c, k, k' - 1);
    }
  }

  lemma {:induction false} Shift(g: Graph, c: Symbol, a: nat, b: nat, j: nat)
    requires Ancestor(g, c, a) == Ancestor(g, c, b)
    ensures Ancestor(g, c, a + j) == Ancestor(g, c, b + j)
    decreases j
  {
    if j > 0 {
      Shift(g, c, a, b, j - 1);
    }
  }

  /** Every chain falls into exactly one of the three fates. */
  lemma Trichotomy(g: Graph, c: Symbol)
    ensures ReachesRoot(g, c) || Dangles(g, c) || Cycles(g, c)
    ensures !(ReachesRoot(g, c) && Dangles(g, c))
    ensures !(ReachesRoot(g, c) && Cycles(g, c))
    ensures !(Dangles(g, c) && Cycles(g, c))
  {
    if ReachesRoot(g, c) && Dangles(g, c) {
      var k0: nat :| Ancestor(g, c, k0) == Object && ChainWithin(g, c, k0);
      var k1: nat :| Ancestor(g, c, k1) !in g;
      if k1 > k0 {
        RootIsFixed(g, c, k0, k1);
      }
      assert false;
    }
    if !Cycles(g, c) && !Dangles(g, c) {
      var k: nat :| !(Ancestor(g, c, k) in g && Ancestor(g, c, k) != Object);
      assert ChainWithin(g, c, k);
    }
  }

  /** A meeting of the slow and fast positions before Object means the chain cycles. */
  lemma {:induction false} MeetingIsCycle(g: Graph, c: Symbol, t: nat, k: nat)
    requires t >= 1 && Ancestor(g, c, t) == Ancestor(g, c, 2 * t)
    requires forall r: nat :: r <= 2 * t ==> Ancestor(g, c, r) in g && Ancestor(g, c, r) != Object
    ensures Ancestor(g, c, k) in g && Ancestor(g, c, k) != Object
    decreases k
  {
    if k > 2 * t {
      Shift(g, c, t, 2 * t, k - 2 * t);
      MeetingIsCycle(g, c, t, k - t);
    }
  }

  /** Every name the chain from `c` can reach. */
  function Universe(g: Graph, c: Symbol): set<Symbol> {
    g.Keys + (set x | x in g :: g[x].parent) + {c}
  }

  lemma {:induction false} AncestorInUniverse(g: Graph, c: Symbol, k: nat)
    ensures Ancestor(g, c, k) in Universe(g, c)
    decreases k
  {
    if k > 0 {
      AncestorInUniverse(g, c, k - 1);
    }
  }

  /** The first `n + 1` chain positions drawn from a set of at most `n` names repeat one (pigeonhole). */
  lemma {:induction false} ChainRepeats(g: Graph, c: Symbol, n: nat, u: set<Symbol>) returns (i: nat, j: nat)
    requires |u| <= n
    requires forall r: nat :: r <= n ==> Ancestor(g, c, r) in u
    ensures i < j <= n && Ancestor(g, c, i) == Ancestor(g, c, j)
    decreases n
  {
    var last := Ancestor(g, c, n);
    if exists x: nat :: x < n && Ancestor(g, c, x) == last {
      var x: nat :| x < n && Ancestor(g, c, x) == last;
      i, j := x, n;
    } else {
      var u' := u - {last};
      assert |u'| == |u| - 1;
      assert n > 0 by {
        assert Ancestor(g, c, 0) in u;
      }
      i, j := ChainRepeats(g, c, n - 1, u');
    }
  }

  lemma {:induction false} Periodic(g: Graph, c: Symbol, i: nat, p: nat, m: nat, q: nat)
    requires Ancestor(g, c, i + p) == Ancestor(g, c, i) && i <= m
    ensures Ancestor(g, c, m + q * p) == Ancestor(g, c, m)
    decreases q
  {
    if q > 0 {
      Periodic(g, c, i, p, m, q - 1);
      var n := m + (q - 1) * p;
      Shift(g, c, i, i + p, n - i);
      assert m + q * p == n + p;
    }
  }

  /** A finite set that holds every position of the chain from `c`. */
  lemma ChainBounded(g: Graph, c: Symbol) returns (u: set<Symbol>)
    ensures forall r: nat :: Ancestor(g, c, r) in u
  {
    u := Universe(g, c);
    forall r: nat ensures Ancestor(g, c, r) in u {
      AncestorInUniverse(g, c, r);
    }
  }

  /** Some position of the chain recurs `p >= 1` steps later. */
  lemma Recurrence(g: Graph, c: Symbol) returns (i: nat, p: nat)
    ensures p >= 1 && Ancestor(g, c, i + p) == Ancestor(g, c, i)
  {
    var u := ChainBounded(g, c);
    var j;
    i, j := ChainRepeats(g, c, |u|, u);
    p := j - i;
    assert i + p == j;
  }

  lemma MulAtLeast(p: nat, n: nat)
    requires p >= 1
    ensures p * n >= n
  {
  }

  /** Some position `t >= 1` of the chain equals position `2t`: the bound of the tortoise/hare walk. */
  lemma EventualMeeting(g: Graph, c: Symbol) returns (t: nat)
    ensures t >= 1 && Ancestor(g, c, t) == Ancestor(g, c, 2 * t)
  {
    var i, p := Recurrence(g, c);
    t := p * (i + 1);
    MulAtLeast(p, i + 1);
    Periodic(g, c, i, p, t, i + 1);
    assert t + (i + 1) * p == 2 * t;
  }

  // ---------------------------------------------------------------------
  // The tortoise/hare walk
  // ---------------------------------------------------------------------

  datatype Walk = Rooted | Undefined(cls: Symbol) | CycleFound

  /**
    The walk the constructor runs from one class other than Object.  The slow
    pointer advances one parent step per round and the fast pointer two (one,
    if the first step lands on Object); the walk ends when either reaches
    Object, when a visited class's parent is not in the graph, or when the two
    meet.
  */
  method FloydWalk(g: Graph, start: Symbol) returns (w: Walk)
    requires start in g && start != Object
    ensures w.Rooted? <==> ReachesRoot(g, start)
    ensures w.Undefined? <==> Dangles(g, start)
    ensures w.CycleFound? <==> Cycles(g, start)
    ensures w.Undefined? ==>
      w.cls in g && w.cls != Object && g[w.cls].parent !in g && OnChain(g, start, w.cls)
  {
    Trichotomy(g, start);
    ghost var bound := EventualMeeting(g, start);
    var slow, fast := start, start;
    ghost var t: nat := 0;
    while true
      invariant t < bound
      invariant slow == Ancestor(g, start, t) && fast == Ancestor(g, start, 2 * t)
      invariant slow != Object && fast != Object
      invariant ChainWithin(g, start, 2 * t)
      decreases bound - t
    {
      if g[slow].parent !in g {
        assert Ancestor(g, start, t + 1) == g[slow].parent;
        return Undefined(slow);
      }
      slow := g[slow].parent;
      if g[fast].parent !in g {
        assert Ancestor(g, start, 2 * t + 1) == g[fast].parent;
        return Undefined(fast);
      }
      fast := g[fast].parent;
      assert fast == Ancestor(g, start, 2 * t + 1);
      if fast != Object {
        if g[fast].parent !in g {
          assert Ancestor(g, start, 2 * t + 2) == g[fast].parent;
          return Undefined(fast);
        }
        fast := g[fast].parent;
      }
      assert fast == Ancestor(g, start, 2 * t + 2);
      t := t + 1;
      assert ChainWithin(g, start, 2 * t);
      if slow == Object || fast == Object {
        if slow == Object {
          RootIsFixed(g, start, t, 2 * t);
        }
        assert Ancestor(g, start, 2 * t) == Object;
        return Rooted;
      }
      if slow == fast {
        forall r: nat | r <= 2 * t ensures Ancestor(g, start, r) in g && Ancestor(g, start, r) != Object {
          if Ancestor(g, start, r) == Object {
            RootIsFixed(g, start, r, 2 * t);
          }
        }
        forall k: nat ensures Ancestor(g, start, k) in g && Ancestor(g, start, k) != Object {
          MeetingIsCycle(g, start, t, k);
        }
        return CycleFound;
      }
    }
  }

  // ---------------------------------------------------------------------
  // The whole construction
  // ---------------------------------------------------------------------

  datatype Outcome = Outcome(graph: Graph, errors: nat)

  /** What the constructor leaves behind: the graph it built and the number of errors reported. */
  ghost function Built(classes: seq<Class>): (r: Outcome)
    ensures r.errors <= 1
    ensures BasicGraph().Keys <= r.graph.Keys
    ensures forall x :: x in BasicGraph() ==> r.graph[x] == BasicGraph()[x]
  {
    match Declare(BasicGraph(), classes, false)
    case Rejected(g, _) => Outcome(g, 1)
    case Accepted(g, mainPresent) =>
      if !mainPresent then Outcome(g, 1)
      else if AllReachRoot(g) then Outcome(g, 0)
      else Outcome(g, 1)
  }

  /**
    The class table reports no error exactly when every declared class passes
    its checks, one of them is `Main`, and every class of the resulting graph
    reaches Object through classes of the graph.
  */
  lemma NoErrorsIff(classes: seq<Class>)
    ensures Built(classes).errors == 0 <==>
      && (forall i :: 0 <= i < |classes| ==> Passes(BasicGraph(), classes, i))
      && Main in NamesOf(classes)
      && AllReachRoot(BasicGraph() + Table(classes))
  {
    DeclareAccepted(BasicGraph(), classes, false);
    if Declare(BasicGraph(), classes, false).Accepted? {
      DeclareAcceptedGraph(BasicGraph(), classes, false);
    }
  }

  /** Without a `Main` class exactly one error is reported, whatever the shape of the graph. */
  lemma MissingMain(classes: seq<Class>)
    requires forall i :: 0 <= i < |classes| ==> Passes(BasicGraph(), classes, i)
    requires Main !in NamesOf(classes)
    ensures Built(classes) == Outcome(BasicGraph() + Table(classes), 1)
  {
    DeclareAccepted(BasicGraph(), classes, false);
    DeclareAcceptedGraph(BasicGraph(), classes, false);
    var d := Declare(BasicGraph(), classes, false);
    assert d.Accepted? && !d.mainPresent;
    assert d.graph == BasicGraph() + Table(classes);
  }

  /**
    The first class that fails a check (a name already in the graph, built-in
    names included; itself as parent; Bool, Int or String as parent) gives one
    error, is not inserted, and no later class is looked at.
  */
  lemma FirstFailureStops(classes: seq<Class>, i: nat)
    requires i < |classes|
    requires forall j :: 0 <= j < i ==> Passes(BasicGraph(), classes, j)
    requires !Passes(BasicGraph(), classes, i)
    ensures Built(classes) == Outcome(BasicGraph() + Table(classes[..i]), 1)
    ensures Declare(BasicGraph(), classes, false).Rejected?
    ensures Declare(BasicGraph(), classes, false).error ==
      Verdict((BasicGraph() + Table(classes[..i])).Keys, classes[i]).value
  {
    DeclareRejected(BasicGraph(), classes, false, i);
  }

  /** Redeclaring a built-in class is reported as a redefinition. */
  lemma BuiltinRedefined(classes: seq<Class>, i: nat)
    requires i < |classes|
    requires forall j :: 0 <= j < i ==> Passes(BasicGraph(), classes, j)
    requires classes[i].name in {Object, IO, Int, Bool, Str}
    ensures Built(classes) == Outcome(BasicGraph() + Table(classes[..i]), 1)
    ensures Declare(BasicGraph(), classes, false) ==
      Rejected(BasicGraph() + Table(classes[..i]), Redefined(classes[i].name))
  {
    DeclareRejected(BasicGraph(), classes, false, i);
  }

  /** A class with no features, declared in file "test.cl". */
  function Plain(name: Symbol, parent: Symbol): Class {
    Class(name, parent, [], "test.cl")
  }

  /** A program with `Main` and the three-class cycle A -> B -> C -> A. */
  const CycleProgram: seq<Class> := [Plain(Main, Object), Plain("A", "B"), Plain("B", "C"), Plain("C", "A")]

  function CycleGraph(): Graph {
    BasicGraph()[Main := CycleProgram[0]]["A" := CycleProgram[1]]["B" := CycleProgram[2]]["C" := CycleProgram[3]]
  }

  lemma CycleProgramAccepted()
    ensures Declare(BasicGraph(), CycleProgram, false) == Accepted(CycleGraph(), true)
  {
    var cs := CycleProgram;
    var g1 := BasicGraph()[Main := cs[0]];
    var g2 := g1["A" := cs[1]];
    var g3 := g2["B" := cs[2]];
    assert cs[3..][1..] == [];
    assert Declare(g3, cs[3..], true) == Accepted(CycleGraph(), true);
    assert cs[2..][1..] == cs[3..];
    assert Declare(g2, cs[2..], true) == Accepted(CycleGraph(), true);
    assert cs[1..][1..] == cs[2..];
    assert Declare(g1, cs[1..], true) == Accepted(CycleGraph(), true);
  }

  lemma CycleFromA()
    ensures Cycles(CycleGraph(), "A")
  {
    var g := CycleGraph();
    assert Ancestor(g, "A", 1) == "B";
    assert Ancestor(g, "A", 2) == "C";
    assert Ancestor(g, "A", 3) == "A";
    assert Ancestor(g, "A", 4) == "B";
    assert Ancestor(g, "A", 5) == "C";
    assert Ancestor(g, "A", 6) == "A";
    forall k: nat ensures Ancestor(g, "A", k) in g && Ancestor(g, "A", k) != Object {
      MeetingIsCycle(g, "A", 3, k);
    }
  }

  /** A three-class cycle A -> B -> C -> A is found and reported as one error. */
  lemma ThreeCycleReported()
    ensures Cycles(Built(CycleProgram).graph, "A")
    ensures Built(CycleProgram).errors == 1
  {
    CycleProgramAccepted();
    CycleFromA();
    Trichotomy(CycleGraph(), "A");
    assert !AllReachRoot(CycleGraph());
  }

  /** A program whose only class is `Main`, inheriting IO, is accepted without errors. */
  lemma MainAloneAccepted()
    ensures Built([Plain(Main, IO)]).errors == 0
  {
    var classes := [Plain(Main, IO)];
    var g := BasicGraph()[Main := classes[0]];
    assert Declare(BasicGraph(), classes, false) == Accepted(g, true) by {
      assert classes[1..] == [];
    }
    forall c | c in g && c != Object ensures ReachesRoot(g, c) {
      if c == Main {
        assert Ancestor(g, c, 2) == Object && ChainWithin(g, c, 2);
      } else {
        assert Ancestor(g, c, 1) == Object && ChainWithin(g, c, 1);
      }
    }
  }

  // ---------------------------------------------------------------------
  // The stateful class table
  // ---------------------------------------------------------------------

  class ClassTable {
    var graph: Graph
    var semantErrors: nat

    /** Builds and checks the table; stops at the first error it reports. */
    constructor (classes: seq<Class>)
      ensures graph == Built(classes).graph
      ensures semantErrors == Built(classes).errors
    {
      graph := map[];
      semantErrors := 0;
      new;
      InstallBasicClasses();
      var mainPresent := false;
      var i := 0;
      while i < |classes|
        invariant 0 <= i <= |classes|
        invariant semantErrors == 0
        invariant Declare(graph, classes[i..], mainPresent) == Declare(BasicGraph(), classes, false)
      {
        var c := classes[i];
        assert classes[i..][0] == c && classes[i..][1..] == classes[i + 1..];
        if c.name in graph {
          SemantError();
          return;
        }
        if c.name == c.parent {
          SemantError();
          return;
        }
        if c.parent == Bool || c.parent == Int || c.parent == Str {
          SemantError();
          return;
        }
        graph := graph[c.name := c];
        if c.name == Main {
          mainPresent := true;
        }
        i := i + 1;
      }
      assert classes[i..] == [];
      if !mainPresent {
        SemantError();
        return;
      }
      CheckInheritance();
    }

    /** Seeds the empty graph with the five built-in classes. */
    method InstallBasicClasses()
      requires graph == map[]
      modifies this`graph
      ensures graph == BasicGraph()
    {
      graph := graph[Object := ObjectClass];
      graph := graph[IO := IOClass];
      graph := graph[Int := IntClass];
      graph := graph[Bool := BoolClass];
      graph := graph[Str := StrClass];
    }

    /** Reports one error. */
    method SemantError()
      modifies this`semantErrors
      ensures semantErrors == old(semantErrors) + 1
    {
      semantErrors := semantErrors + 1;
    }

    /**
      Walks the chain of every class other than Object, in an unspecified
      order, and reports one error at the first undefined parent or cycle.
    */
    method CheckInheritance()
      modifies this`semantErrors
      ensures semantErrors == old(semantErrors) + (if AllReachRoot(graph) then 0 else 1)
    {
      var pending := graph.Keys;
      while pending != {}
        invariant pending <= graph.Keys
        invariant semantErrors == old(semantErrors)
        invariant forall c :: c in graph && c !in pending && c != Object ==> ReachesRoot(graph, c)
        decreases pending
      {
        var c :| c in pending;
        if c != Object {
          var w := FloydWalk(graph, c);
          if !w.Rooted? {
            SemantError();
            return;
          }
        }
        pending := pending - {c};
      }
    }
  }

  /** The analyser's entry point: build the class table and halt on any error. */
  method Semant(classes: seq<Class>) returns (halted: bool)
    ensures halted <==> Built(classes).errors != 0
  {
    var table := new ClassTable(classes);
    halted := table.semantErrors != 0;
  }
}
