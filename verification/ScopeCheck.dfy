/** scripts/source-scope-check.js: the scope tree of a program, and the identifiers that no scope declares. */
module ScopeCheck {
  import opened Wrappers

  // ------------------------------------------------------------ programs

  datatype Ref = Ref(name: string, line: nat, column: nat)

  /** `NoBinding` stands for a hole and for anything else that binds no name. A rest property has no computed key. */
  datatype Pattern =
    | Binding(name: string)
    | Rest(argument: Pattern)
    | Default(left: Pattern, right: Node)
    | Elements(items: seq<Pattern>)
    | Properties(properties: seq<Property>)
    | NoBinding

  datatype Property = Property(computedKey: Option<Node>, value: Pattern)

  datatype Declarator = Declarator(id: Pattern, init: Option<Node>)

  /** The nodes the visitor tells apart. `Group` stands for every node of which it only visits some children, in order;
      `Block` is a block statement that is not a function body, or a static block. */
  datatype Node =
    | Identifier(ref: Ref)
    | Import(names: seq<string>)
    | Variables(isVar: bool, declarators: seq<Declarator>)
    | FunctionDeclaration(name: Option<string>, params: seq<Pattern>, body: Node)
    | FunctionExpression(arrow: bool, name: Option<string>, params: seq<Pattern>, body: Node)
    | Block(items: seq<Node>)
    | Class(isDeclaration: bool, name: Option<string>, superClass: Option<Node>, members: seq<Node>)
    | Catch(param: Pattern, body: Node)
    | Group(children: seq<Node>)

  // ------------------------------------------------------------ free identifiers, bottom up

  /** The references whose names are not among these. */
  function Without(refs: seq<Ref>, names: set<string>): seq<Ref> {
    if refs == [] then [] else (if refs[0].name in names then [] else [refs[0]]) + Without(refs[1..], names)
  }

  /** Of a piece of program: its own references, those that inner scopes leave open, the names it declares in the scope
      it stands in, and the names it declares in the nearest function or program around it. */
  datatype Summary = Summary(own: seq<Ref>, inner: seq<Ref>, names: set<string>, vars: set<string>) {
    function Plus(other: Summary): Summary {
      Summary(own + other.own, inner + other.inner, names + other.names, vars + other.vars)
    }

    /** What is left outside a block: its own names close references, `var` names pass through. */
    function InBlock(): Summary {
      Summary([], Without(own + inner, names), {}, vars)
    }

    /** What is left outside a function. */
    function InFunction(): Summary {
      Summary([], Without(own + inner, names + vars), {}, {})
    }
  }

  const Nothing := Summary([], [], {}, {})

  function Names(names: set<string>): Summary {
    Summary([], [], names, {})
  }

  function Named(name: Option<string>): set<string> {
    if name.Some? then {name.value} else {}
  }

  /** The names a pattern binds. */
  function PatternNames(p: Pattern): set<string>
    decreases p
  {
    match p
    case Binding(name) => {name}
    case Rest(argument) => PatternNames(argument)
    case Default(left, _) => PatternNames(left)
    case Elements(items) => AllPatternNames(items)
    case Properties(properties) => PropertyNames(properties)
    case NoBinding => {}
  }

  function AllPatternNames(items: seq<Pattern>): set<string>
    decreases items
  {
    if items == [] then {} else PatternNames(items[0]) + AllPatternNames(items[1..])
  }

  function NamesOfProperty(property: Property): set<string>
    decreases property
  {
    PatternNames(property.value)
  }

  function PropertyNames(properties: seq<Property>): set<string>
    decreases properties
  {
    if properties == [] then {} else NamesOfProperty(properties[0]) + PropertyNames(properties[1..])
  }

  /** The expressions inside a parameter that the visitor evaluates: its default, or the computed keys and defaults of
      its parts, but not those on the left of a default. */
  function Defaults(p: Pattern): Summary
    decreases p
  {
    match p
    case Default(_, right) => Analyse(right)
    case Elements(items) => AllDefaults(items)
    case Properties(properties) => PropertyDefaults(properties)
    case Rest(argument) => Defaults(argument)
    case _ => Nothing
  }

  function AllDefaults(items: seq<Pattern>): Summary
    decreases items
  {
    if items == [] then Nothing else Defaults(items[0]).Plus(AllDefaults(items[1..]))
  }

  function DefaultsOfProperty(property: Property): Summary
    decreases property
  {
    AnalyseOptional(property.computedKey).Plus(Defaults(property.value))
  }

  function PropertyDefaults(properties: seq<Property>): Summary
    decreases properties
  {
    if properties == [] then Nothing else DefaultsOfProperty(properties[0]).Plus(PropertyDefaults(properties[1..]))
  }

  function Parameters(params: seq<Pattern>): Summary
    decreases params
  {
    if params == [] then Nothing
    else Names(PatternNames(params[0])).Plus(Defaults(params[0])).Plus(Parameters(params[1..]))
  }

  function AnalyseOptional(node: Option<Node>): Summary
    decreases node
  {
    match node
    case None => Nothing
    case Some(n) => Analyse(n)
  }

  function AnalyseAll(nodes: seq<Node>): Summary
    decreases nodes
  {
    if nodes == [] then Nothing else Analyse(nodes[0]).Plus(AnalyseAll(nodes[1..]))
  }

  function DeclaredNames(isVar: bool, names: set<string>): Summary {
    Summary([], [], if isVar then {} else names, if isVar then names else {})
  }

  function AnalyseDeclarator(isVar: bool, declarator: Declarator): Summary
    decreases declarator
  {
    DeclaredNames(isVar, PatternNames(declarator.id)).Plus(AnalyseOptional(declarator.init))
  }

  function AnalyseDeclarators(isVar: bool, declarators: seq<Declarator>): Summary
    decreases declarators
  {
    if declarators == [] then Nothing
    else AnalyseDeclarator(isVar, declarators[0]).Plus(AnalyseDeclarators(isVar, declarators[1..]))
  }

  /** A function's body: a block there opens no scope of its own. */
  function AnalyseBody(body: Node): Summary
    decreases body, 1
  {
    match body
    case Block(items) => AnalyseAll(items)
    case _ => Analyse(body)
  }

  function Analyse(node: Node): Summary
    decreases node, 0
  {
    match node
    case Identifier(ref) => Summary([ref], [], {}, {})
    case Import(names) => Names(set n | n in names)
    case Variables(isVar, declarators) => AnalyseDeclarators(isVar, declarators)
    case FunctionDeclaration(name, params, body) =>
      Names(Named(name)).Plus(Names({"arguments"}
          + Named(name)).Plus(Parameters(params)).Plus(AnalyseBody(body)).InFunction())
    case FunctionExpression(arrow, name, params, body) =>
      Names((if arrow then {} else {"arguments"})
          + Named(name)).Plus(Parameters(params)).Plus(AnalyseBody(body)).InFunction()
    case Block(items) => AnalyseAll(items).InBlock()
    case Class(isDeclaration, name, superClass, members) =>
      Names(if isDeclaration then Named(name) else {}).Plus(AnalyseOptional(superClass))
        .Plus(Names(Named(name)).Plus(AnalyseAll(members)).InBlock())
    case Catch(param, body) => Names(PatternNames(param)).Plus(Analyse(body)).InBlock()
    case Group(children) => AnalyseAll(children)
  }

  // ------------------------------------------------------------ scope trees

  datatype ScopeType = Program | Function | BlockScope | ClassScope

  datatype Scope = Scope(parent: Option<nat>, kind: ScopeType, declarations: set<string>, references: seq<Ref>,
      children: seq<nat>)

  predicate Hoists(kind: ScopeType) {
    kind == Program || kind == Function
  }

  /** Every scope but the first has an older parent, and lists only its own children. */
  ghost predicate Parents(scopes: seq<Scope>) {
    && scopes != [] && scopes[0].kind == Program
    && (forall i :: 0 < i < |scopes| ==> scopes[i].parent.Some? && scopes[i].parent.value < i)
    && forall i :: 0 <= i < |scopes| ==> ListsChildren(scopes, i)
  }

  ghost predicate ListsChildren(scopes: seq<Scope>, i: nat)
    requires i < |scopes|
  {
    forall k :: 0 <= k < |scopes[i].children| ==>
      i < scopes[i].children[k] < |scopes| && scopes[scopes[i].children[k]].parent == Some(i)
  }

  ghost predicate Young(children: seq<nat>, lo: nat, hi: nat) {
    forall k :: 0 <= k < |children| ==> lo <= children[k] < hi
  }

  /** The first scope is the program's; every other one is listed by the scope around it, which is older. */
  ghost predicate WellFormed(scopes: seq<Scope>) {
    && Parents(scopes) && scopes[0].parent.None?
    && forall i :: 0 <= i < |scopes| ==> ChildrenFit(scopes, i)
  }

  ghost predicate ChildrenFit(scopes: seq<Scope>, i: nat)
    requires Parents(scopes) && i < |scopes|
  {
    forall c :: c in scopes[i].children <==> 0 < c < |scopes| && ParentOf(scopes, c) == i
  }

  ghost function FunctionScope(scopes: seq<Scope>, i: nat): (f: nat)
    requires Parents(scopes) && i < |scopes|
    ensures f <= i
  {
    if Hoists(scopes[i].kind) then i else FunctionScope(scopes, scopes[i].parent.value)
  }

  /** The name is declared in scope `i` or in a scope around it, counting only scopes from `n` on. */
  ghost predicate Declared(scopes: seq<Scope>, n: nat, i: nat, name: string)
    requires Parents(scopes) && i < |scopes|
  {
    n <= i && (name in scopes[i].declarations || (i > 0 && Declared(scopes, n, scopes[i].parent.value, name)))
  }

  /** The references among these, made in scope `i`, that no scope from `n` on declares. */
  ghost function OpenRefs(scopes: seq<Scope>, n: nat, i: nat, refs: seq<Ref>): seq<Ref>
    requires Parents(scopes) && i < |scopes|
  {
    if refs == [] then []
    else (if Declared(scopes, n, i, refs[0].name) then [] else [refs[0]]) + OpenRefs(scopes, n, i, refs[1..])
  }

  /** What scope `i` and the scopes in it leave open, counting only declarations in scopes from `n` on. */
  ghost function OpenList(scopes: seq<Scope>, n: nat, i: nat): seq<Ref>
    requires Parents(scopes) && i < |scopes|
    decreases |scopes| - i, 1, 0
  {
    assert ListsChildren(scopes, i);
    OpenRefs(scopes, n, i, scopes[i].references) + OpenAll(scopes, n, i + 1, scopes[i].children)
  }

  ghost function OpenAll(scopes: seq<Scope>, n: nat, lo: nat, children: seq<nat>): seq<Ref>
    requires Parents(scopes) && Young(children, lo, |scopes|)
    decreases |scopes| - lo, 2, |children|
  {
    if children == [] then [] else OpenList(scopes, n, children[0]) + OpenAll(scopes, n, lo, children[1..])
  }

  /** From `a` to `b` something was visited in scope `s` that sums up to `sum`. */
  ghost predicate Grown(a: seq<Scope>, b: seq<Scope>, s: nat, sum: Summary) {
    && Parents(a) && Parents(b) && s < |a| <= |b|
    && SameScope(a, b, s, sum, s)
    && (forall i :: 0 <= i < |a| ==> SameScope(a, b, s, sum, i))
    && (forall i :: |a| <= i < |b| ==> ParentOf(b, i) == s || ParentOf(b, i) >= |a|)
    && Young(NewChildren(a, b, s), |a|, |b|)
    && sum.inner == OpenAll(b, |a|, |a|, NewChildren(a, b, s))
  }

  ghost function NewChildren(a: seq<Scope>, b: seq<Scope>, s: nat): seq<nat>
    requires s < |a| && s < |b| && |a[s].children| <= |b[s].children|
  {
    b[s].children[|a[s].children|..]
  }

  ghost function ParentOf(scopes: seq<Scope>, i: nat): nat
    requires Parents(scopes) && 0 < i < |scopes|
  {
    scopes[i].parent.value
  }

  ghost predicate SameScope(a: seq<Scope>, b: seq<Scope>, s: nat, sum: Summary, i: nat)
    requires Parents(a) && s < |a| <= |b| && i < |a|
  {
    && b[i].parent == a[i].parent && b[i].kind == a[i].kind
    && b[i].declarations ==
      a[i].declarations + (if i == s then sum.names else {}) + (if i == FunctionScope(a, s) then sum.vars else {})
    && b[i].references == a[i].references + (if i == s then sum.own else [])
    && (if i == s then a[i].children <= b[i].children else a[i].children == b[i].children)
  }

  lemma {:induction false} SameFunctionScope(a: seq<Scope>, b: seq<Scope>, i: nat)
    requires Parents(a) && Parents(b) && i < |a| <= |b|
    requires forall j :: 0 <= j < |a| ==> b[j].parent == a[j].parent && b[j].kind == a[j].kind
    ensures FunctionScope(a, i) == FunctionScope(b, i)
  {
    if !Hoists(a[i].kind) {
      SameFunctionScope(a, b, a[i].parent.value);
    }
  }

  /** Chains that start below `m` look the same in both trees. */
  lemma {:induction false} SameDeclared(a: seq<Scope>, b: seq<Scope>, n: nat, i: nat, name: string)
    requires Parents(a) && Parents(b) && i < |a| <= |b|
    requires forall j :: n <= j < |a| ==> b[j].parent == a[j].parent && b[j].declarations == a[j].declarations
    ensures Declared(a, n, i, name) <==> Declared(b, n, i, name)
    decreases i
  {
    if n <= i && i > 0 {
      SameDeclared(a, b, n, a[i].parent.value, name);
    }
  }

  /** A chain that leaves the scopes from `m` on for one before `n` meets none between them. */
  lemma {:induction false} SkipDeclared(scopes: seq<Scope>, n: nat, m: nat, s: nat, i: nat, name: string)
    requires Parents(scopes) && s < n <= m <= i < |scopes|
    requires forall j :: m <= j < |scopes| ==> ParentOf(scopes, j) == s || ParentOf(scopes, j) >= m
    ensures Declared(scopes, n, i, name) <==> Declared(scopes, m, i, name)
    decreases i
  {
    var p := ParentOf(scopes, i);
    if p >= m {
      SkipDeclared(scopes, n, m, s, p, name);
    }
  }

  /** One more scope at the end of the chain. */
  lemma {:induction false} OneMoreDeclared(scopes: seq<Scope>, n: nat, i: nat, name: string)
    requires Parents(scopes) && n < i < |scopes|
    requires forall j :: n < j < |scopes| ==> ParentOf(scopes, j) >= n
    requires n > 0 ==> ParentOf(scopes, n) < n
    ensures Declared(scopes, n, i, name) <==> Declared(scopes, n + 1, i, name) || name in scopes[n].declarations
    decreases i
  {
    var p := ParentOf(scopes, i);
    if p > n {
      OneMoreDeclared(scopes, n, p, name);
    } else {
      assert !Declared(scopes, n + 1, p, name);
      assert n > 0 ==> !Declared(scopes, n, ParentOf(scopes, n), name);
      assert Declared(scopes, n, p, name) <==> name in scopes[n].declarations;
    }
  }

  // ------------------------------------------------------------ how the tree grows

  lemma NothingGrown(a: seq<Scope>, s: nat)
    requires Parents(a) && s < |a|
    ensures Grown(a, a, s, Nothing)
  {
    hide FunctionScope, Declared;
  }

  lemma LaterParents(a: seq<Scope>, b: seq<Scope>, s: nat, x: Summary)
    requires Grown(a, b, s, x)
    ensures forall i :: |a| <= i < |b| ==> ParentOf(b, i) == s || ParentOf(b, i) >= |a|
  {}

  ghost predicate SameContents(b: seq<Scope>, c: seq<Scope>, i: nat)
    requires i < |b| <= |c|
  {
    && c[i].references == b[i].references && c[i].parent == b[i].parent && c[i].declarations == b[i].declarations
    && c[i].children == b[i].children
  }

  /** The scopes a visit has made are not touched by the next visit in the same scope. */
  lemma LaterScopesStay(a: seq<Scope>, b: seq<Scope>, c: seq<Scope>, s: nat, x: Summary, y: Summary)
    requires Grown(a, b, s, x) && Grown(b, c, s, y)
    ensures forall i :: |a| <= i < |b| ==>
      SameContents(b, c, i)
  {
    forall i | |a| <= i < |b|
      ensures SameContents(b, c, i)
    {
      hide Declared, OpenAll;
      assert SameScope(b, c, s, y, i);
      assert FunctionScope(b, s) <= s;
    }
  }

  lemma GrownAt(a: seq<Scope>, b: seq<Scope>, s: nat, x: Summary, i: nat)
    requires Grown(a, b, s, x) && i < |a|
    ensures SameScope(a, b, s, x, i)
  {
    hide SameScope;
  }

  lemma GrownInner(a: seq<Scope>, b: seq<Scope>, s: nat, x: Summary)
    requires Grown(a, b, s, x)
    ensures Parents(a) && Parents(b) && s < |a| <= |b| && a[s].children <= b[s].children
    ensures Young(NewChildren(a, b, s), |a|, |b|) && x.inner == OpenAll(b, |a|, |a|, NewChildren(a, b, s))
  {
    hide OpenAll, Young;
  }

  lemma GrownFunctionScope(a: seq<Scope>, b: seq<Scope>, s: nat, x: Summary, i: nat)
    requires Grown(a, b, s, x) && i < |a|
    ensures FunctionScope(a, i) == FunctionScope(b, i)
  {
    hide OpenAll, FunctionScope;
    forall j | 0 <= j < |a|
      ensures b[j].parent == a[j].parent && b[j].kind == a[j].kind
    {
      GrownAt(a, b, s, x, j);
    }
    SameFunctionScope(a, b, i);
  }

  lemma SameScopeTwice(a: seq<Scope>, b: seq<Scope>, c: seq<Scope>, s: nat, x: Summary, y: Summary, i: nat)
    requires Parents(a) && Parents(b) && s < |a| <= |b| <= |c| && i < |a| && FunctionScope(a, s) == FunctionScope(b, s)
    requires SameScope(a, b, s, x, i) && SameScope(b, c, s, y, i)
    ensures SameScope(a, c, s, x.Plus(y), i)
  {
    hide FunctionScope;
  }

  /** Two visits in the same scope, one after the other. */
  lemma GrownTwice(a: seq<Scope>, b: seq<Scope>, c: seq<Scope>, s: nat, x: Summary, y: Summary)
    requires Grown(a, b, s, x) && Grown(b, c, s, y)
    ensures Grown(a, c, s, x.Plus(y))
  {
    hide OpenAll, FunctionScope, SameScope;
    GrownFunctionScope(a, b, s, x, s);
    forall i | 0 <= i < |a|
      ensures SameScope(a, c, s, x.Plus(y), i)
    {
      GrownAt(a, b, s, x, i);
      GrownAt(b, c, s, y, i);
      SameScopeTwice(a, b, c, s, x, y, i);
    }
    LaterScopesStay(a, b, c, s, x, y);
    LaterParents(a, b, s, x);
    LaterParents(b, c, s, y);
    forall i | |a| <= i < |c|
      ensures ParentOf(c, i) == s || ParentOf(c, i) >= |a|
    {
      if i < |b| {
        assert SameContents(b, c, i);
        assert ParentOf(c, i) == ParentOf(b, i);
      }
    }
    InnerTwice(a, b, c, s, x, y);
  }

  /** Two lists of scopes that look the same, with the same names declared around, leave the same open. */
  lemma {:induction false} OpenAgree(x: seq<Scope>, n: nat, y: seq<Scope>, m: nat, lo: nat, i: nat)
    requires Parents(x) && Parents(y) && lo <= i < |x| <= |y|
    requires forall j :: lo <= j < |x| ==> SameContents(x, y, j)
    requires forall j, name :: lo <= j < |x| ==> (Declared(x, n, j, name) <==> Declared(y, m, j, name))
    ensures OpenList(x, n, i) == OpenList(y, m, i)
    decreases |x| - i, 1, 0
  {
    hide Declared;
    assert SameContents(x, y, i);
    assert ListsChildren(x, i);
    OpenRefsAgree(x, n, y, m, i, x[i].references);
    OpenAllAgree(x, n, y, m, lo, i + 1, x[i].children);
  }

  lemma {:induction false} OpenAllAgree(x: seq<Scope>, n: nat, y: seq<Scope>, m: nat, lo: nat, i: nat,
      children: seq<nat>)
    requires Parents(x) && Parents(y) && lo <= i && |x| <= |y| && Young(children, i, |x|)
    requires forall j :: lo <= j < |x| ==> SameContents(x, y, j)
    requires forall j, name :: lo <= j < |x| ==> (Declared(x, n, j, name) <==> Declared(y, m, j, name))
    ensures OpenAll(x, n, i, children) == OpenAll(y, m, i, children)
    decreases |x| - i, 2, |children|
  {
    hide Declared, SameContents;
    if children != [] {
      OpenAgree(x, n, y, m, lo, children[0]);
      OpenAllAgree(x, n, y, m, lo, i, children[1..]);
    }
  }

  lemma {:induction false} OpenRefsAgree(x: seq<Scope>, n: nat, y: seq<Scope>, m: nat, i: nat, refs: seq<Ref>)
    requires Parents(x) && Parents(y) && i < |x| <= |y|
    requires forall name :: Declared(x, n, i, name) <==> Declared(y, m, i, name)
    ensures OpenRefs(x, n, i, refs) == OpenRefs(y, m, i, refs)
  {
    hide Declared, Parents;
    if refs != [] {
      OpenRefsAgree(x, n, y, m, i, refs[1..]);
    }
  }

  lemma {:induction false} OpenAllConcat(scopes: seq<Scope>, n: nat, lo: nat, a: seq<nat>, b: seq<nat>)
    requires Parents(scopes) && Young(a, lo, |scopes|) && Young(b, lo, |scopes|)
    ensures Young(a + b, lo, |scopes|)
    ensures OpenAll(scopes, n, lo, a + b) == OpenAll(scopes, n, lo, a) + OpenAll(scopes, n, lo, b)
    decreases |a|
  {
    hide OpenList, Parents;
    if a == [] {
      assert a + b == b;
    } else {
      assert (a + b)[0] == a[0] && (a + b)[1..] == a[1..] + b;
      OpenAllConcat(scopes, n, lo, a[1..], b);
    }
  }

  /** The lower bound of the children is only there for the recursion. */
  lemma {:induction false} OpenAllFrom(scopes: seq<Scope>, n: nat, lo: nat, lower: nat, children: seq<nat>)
    requires Parents(scopes) && Young(children, lo, |scopes|) && lower <= lo
    ensures Young(children, lower, |scopes|) && OpenAll(scopes, n, lo, children) == OpenAll(scopes, n, lower, children)
    decreases |children|
  {
    hide OpenList, Parents;
    if children != [] {
      OpenAllFrom(scopes, n, lo, lower, children[1..]);
    }
  }

  /** What the first visit left open is still open, and what the second left open is so for both. */
  lemma InnerTwice(a: seq<Scope>, b: seq<Scope>, c: seq<Scope>, s: nat, x: Summary, y: Summary)
    requires Grown(a, b, s, x) && Grown(b, c, s, y)
    ensures |a[s].children| <= |c[s].children| && Young(NewChildren(a, c, s), |a|, |c|)
    ensures x.Plus(y).inner == OpenAll(c, |a|, |a|, NewChildren(a, c, s))
  {
    GrownInner(a, b, s, x);
    GrownInner(b, c, s, y);
    var first, second := NewChildren(a, b, s), NewChildren(b, c, s);
    assert NewChildren(a, c, s) == first + second;
    FirstStaysOpen(a, b, c, s, x, y, first);
    SecondIsOpen(a, b, c, s, y, second);
    OpenAllFrom(c, |a|, |b|, |a|, second);
    OpenAllConcat(c, |a|, |a|, first, second);
  }

  lemma FirstStaysOpen(a: seq<Scope>, b: seq<Scope>, c: seq<Scope>, s: nat, x: Summary, y: Summary, children: seq<nat>)
    requires Grown(a, b, s, x) && Grown(b, c, s, y) && Young(children, |a|, |b|)
    ensures Young(children, |a|, |c|) && OpenAll(b, |a|, |a|, children) == OpenAll(c, |a|, |a|, children)
  {
    LaterScopesStay(a, b, c, s, x, y);
    GrownInner(a, b, s, x);
    GrownInner(b, c, s, y);
    hide *;
    DeclaredStays(b, c, |a|);
    YoungUpTo(children, |a|, |b|, |c|);
    OpenAllAgree(b, |a|, c, |a|, |a|, |a|, children);
  }

  lemma YoungUpTo(children: seq<nat>, lo: nat, hi: nat, higher: nat)
    requires Young(children, lo, hi) && hi <= higher
    ensures Young(children, lo, higher)
  {}

  lemma DeclaredStays(b: seq<Scope>, c: seq<Scope>, n: nat)
    requires Parents(b) && Parents(c) && |b| <= |c| && forall j :: n <= j < |b| ==> SameContents(b, c, j)
    ensures forall j, name :: n <= j < |b| ==> (Declared(b, n, j, name) <==> Declared(c, n, j, name))
  {
    forall j | n <= j < |b|
      ensures c[j].parent == b[j].parent && c[j].declarations == b[j].declarations
    {
      assert SameContents(b, c, j);
    }
    hide SameContents, Declared;
    forall j, name | n <= j < |b|
      ensures Declared(b, n, j, name) <==> Declared(c, n, j, name)
    {
      SameDeclared(b, c, n, j, name);
    }
  }

  lemma SecondIsOpen(a: seq<Scope>, b: seq<Scope>, c: seq<Scope>, s: nat, y: Summary, children: seq<nat>)
    requires s < |a| <= |b| && Grown(b, c, s, y) && Young(children, |b|, |c|)
    ensures OpenAll(c, |a|, |b|, children) == OpenAll(c, |b|, |b|, children)
  {
    LaterParents(b, c, s, y);
    forall j, name | |b| <= j < |c|
      ensures Declared(c, |a|, j, name) <==> Declared(c, |b|, j, name)
    {
      SkipDeclared(c, |a|, |b|, s, j, name);
    }
    hide Declared;
    OpenAllAgree(c, |a|, c, |b|, |b|, |b|, children);
  }

  // ------------------------------------------------------------ the single changes

  lemma ReferGrows(a: seq<Scope>, s: nat, ref: Ref)
    requires Parents(a) && s < |a|
    ensures Grown(a, a[s := a[s].(references := a[s].references + [ref])], s, Summary([ref], [], {}, {}))
  {
    var b := a[s := a[s].(references := a[s].references + [ref])];
    SameChildren(a, b);
    hide FunctionScope, Declared;
    assert NewChildren(a, b, s) == [];
  }

  /** Nothing that the tree is made of has changed. */
  lemma SameChildren(a: seq<Scope>, b: seq<Scope>)
    requires Parents(a) && |b| == |a|
    requires forall i :: 0 <= i < |a| ==>
      b[i].parent == a[i].parent && b[i].kind == a[i].kind && b[i].children == a[i].children
    ensures Parents(b)
  {
    forall i | 0 <= i < |b|
      ensures ListsChildren(b, i)
    {
      assert ListsChildren(a, i);
    }
  }

  lemma DeclareGrows(a: seq<Scope>, s: nat, names: set<string>)
    requires Parents(a) && s < |a|
    ensures Grown(a, a[s := a[s].(declarations := a[s].declarations + names)], s, Names(names))
  {
    var b := a[s := a[s].(declarations := a[s].declarations + names)];
    SameChildren(a, b);
    hide FunctionScope, Declared;
    assert NewChildren(a, b, s) == [];
  }

  lemma HoistGrows(a: seq<Scope>, s: nat, names: set<string>)
    requires Parents(a) && s < |a|
    ensures var f := FunctionScope(a, s);
      Grown(a, a[f := a[f].(declarations := a[f].declarations + names)], s, Summary([], [], {}, names))
  {
    var f := FunctionScope(a, s);
    var b := a[f := a[f].(declarations := a[f].declarations + names)];
    SameChildren(a, b);
    hide FunctionScope, Declared;
    assert NewChildren(a, b, s) == [];
  }

  function WithChild(a: seq<Scope>, s: nat, kind: ScopeType): seq<Scope>
    requires s < |a|
  {
    a[s := a[s].(children := a[s].children + [|a|])] + [Scope(Some(s), kind, {}, [], [])]
  }

  lemma ChildIsParented(a: seq<Scope>, s: nat, kind: ScopeType)
    requires Parents(a) && s < |a|
    ensures var b := WithChild(a, s, kind);
      && Parents(b)
      && FunctionScope(b, s) == FunctionScope(a, s)
      && FunctionScope(b, |a|) == if Hoists(kind) then |a| else FunctionScope(a, s)
  {
    var b := WithChild(a, s, kind);
    forall i | 0 <= i < |b|
      ensures ListsChildren(b, i)
    {
      if i < |a| {
        assert ListsChildren(a, i);
      }
    }
    SameFunctionScope(a, b, s);
  }

  function Closed(x: Summary, kind: ScopeType): Summary {
    if Hoists(kind) then x.InFunction() else x.InBlock()
  }

  /** What was visited in a new child scope, seen from the scope around it. */
  lemma ChildGrows(a: seq<Scope>, b: seq<Scope>, s: nat, kind: ScopeType, x: Summary)
    requires Parents(a) && s < |a| && Grown(WithChild(a, s, kind), b, |a|, x)
    ensures Grown(a, b, s, Closed(x, kind))
  {
    var mid, c := WithChild(a, s, kind), |a|;
    hide OpenAll, FunctionScope, WithChild, SameScope, Closed, Declared, Parents;
    ChildDeclares(a, b, s, kind, x);
    LaterParents(mid, b, c, x);
    ChildScopes(a, b, s, kind, x);
    ChildInner(a, b, s, kind, x);
    OpenSingle(b, c);
  }

  lemma ChildScopes(a: seq<Scope>, b: seq<Scope>, s: nat, kind: ScopeType, x: Summary)
    requires Parents(a) && s < |a| && Grown(WithChild(a, s, kind), b, |a|, x)
    ensures |a| <= |b| && forall i :: 0 <= i < |a| ==> SameScope(a, b, s, Closed(x, kind), i)
    ensures a[s].children <= b[s].children && NewChildren(a, b, s) == [|a|]
  {
    var mid, c := WithChild(a, s, kind), |a|;
    ChildIsParented(a, s, kind);
    hide OpenAll, FunctionScope, Declared;
    forall i | 0 <= i < |a|
      ensures SameScope(a, b, s, Closed(x, kind), i)
    {
      GrownAt(mid, b, c, x, i);
    }
    GrownAt(mid, b, c, x, s);
  }

  lemma ChildDeclares(a: seq<Scope>, b: seq<Scope>, s: nat, kind: ScopeType, x: Summary)
    requires Parents(a) && s < |a| && Grown(WithChild(a, s, kind), b, |a|, x)
    ensures Parents(b) && |a| < |b| && b[|a|].parent == Some(s)
    ensures b[|a|].declarations == x.names + if Hoists(kind) then x.vars else {}
    ensures b[|a|].references == x.own
  {
    ChildIsParented(a, s, kind);
    hide OpenAll, FunctionScope;
    GrownAt(WithChild(a, s, kind), b, |a|, x, |a|);
    assert FunctionScope(a, s) <= s;
  }

  /** What the child scope leaves open, by what was visited in it. */
  lemma ChildInner(a: seq<Scope>, b: seq<Scope>, s: nat, kind: ScopeType, x: Summary)
    requires Parents(a) && s < |a| && Grown(WithChild(a, s, kind), b, |a|, x)
    ensures Parents(b) && |a| < |b| && Closed(x, kind).inner == OpenAll(b, |a|, |a|, [|a|])
  {
    hide *;
    ChildDeclares(a, b, s, kind, x);
    ChildParents(a, b, s, kind, x);
    ChildVisited(a, b, s, kind, x);
    OpenCloses(b, |a|);
    OpenSingle(b, |a|);
    ClosedInner(x, kind);
  }

  lemma ChildVisited(a: seq<Scope>, b: seq<Scope>, s: nat, kind: ScopeType, x: Summary)
    requires Parents(a) && s < |a| && Grown(WithChild(a, s, kind), b, |a|, x)
    ensures Parents(b) && |a| < |b| && Young(b[|a|].children, |a| + 1, |b|)
    ensures x.inner == OpenAll(b, |a| + 1, |a| + 1, b[|a|].children)
  {
    hide *;
    var mid, c := WithChild(a, s, kind), |a|;
    NewIsEmpty(a, s, kind);
    InnerOfEmpty(mid, b, c, x);
  }

  lemma InnerOfEmpty(a: seq<Scope>, b: seq<Scope>, s: nat, x: Summary)
    requires Grown(a, b, s, x) && s < |a| && a[s].children == []
    ensures Parents(b) && |a| <= |b| && Young(b[s].children, |a|, |b|) && x.inner == OpenAll(b, |a|, |a|, b[s].children)
  {
    hide *;
    GrownInner(a, b, s, x);
    AllChildren(a, b, s);
  }

  lemma ChildParents(a: seq<Scope>, b: seq<Scope>, s: nat, kind: ScopeType, x: Summary)
    requires Parents(a) && s < |a| && Grown(WithChild(a, s, kind), b, |a|, x)
    ensures Parents(b) && |a| < |b| && forall j :: |a| < j < |b| ==> ParentOf(b, j) >= |a|
  {
    NewIsEmpty(a, s, kind);
    hide OpenAll, FunctionScope, Declared, WithChild, SameScope, Young, ListsChildren;
    LaterParents(WithChild(a, s, kind), b, |a|, x);
  }

  lemma NewIsEmpty(a: seq<Scope>, s: nat, kind: ScopeType)
    requires s < |a|
    ensures var mid := WithChild(a, s, kind); |mid| == |a| + 1 && mid[|a|].children == []
  {}

  lemma AllChildren(a: seq<Scope>, b: seq<Scope>, s: nat)
    requires s < |a| && s < |b| && a[s].children == []
    ensures NewChildren(a, b, s) == b[s].children
  {}

  lemma OpenSingle(b: seq<Scope>, c: nat)
    requires Parents(b) && c < |b|
    ensures Young([c], c, |b|) && OpenAll(b, c, c, [c]) == OpenList(b, c, c)
  {
    hide OpenList;
    assert [c][1..] == [];
    assert OpenAll(b, c, c, [c][1..]) == [];
  }

  lemma ClosedInner(x: Summary, kind: ScopeType)
    ensures Closed(x, kind).inner == Without(x.own + x.inner, x.names + if Hoists(kind) then x.vars else {})
  {
    assert x.names + {} == x.names;
  }

  /** A scope closes the references in it that have its names. */
  lemma OpenCloses(b: seq<Scope>, c: nat)
    requires Parents(b) && c < |b| && forall j :: c < j < |b| ==> ParentOf(b, j) >= c
    ensures ListsChildren(b, c) && Young(b[c].children, c + 1, |b|)
    ensures OpenList(b, c, c) == Without(b[c].references + OpenAll(b, c + 1, c + 1, b[c].children), b[c].declarations)
  {
    var names := b[c].declarations;
    assert ListsChildren(b, c);
    forall i, name | c < i < |b|
      ensures Declared(b, c, i, name) <==> Declared(b, c + 1, i, name) || name in names
    {
      OneMoreDeclared(b, c, i, name);
    }
    assert forall name :: Declared(b, c, c, name) <==> name in names;
    hide Declared;
    OpenRefsHere(b, c, b[c].references);
    OpenAllOneMore(b, c, c + 1, b[c].children);
    WithoutConcat(b[c].references, OpenAll(b, c + 1, c + 1, b[c].children), names);
  }

  lemma {:induction false} OpenRefsHere(b: seq<Scope>, c: nat, refs: seq<Ref>)
    requires Parents(b) && c < |b| && forall name :: Declared(b, c, c, name) <==> name in b[c].declarations
    ensures OpenRefs(b, c, c, refs) == Without(refs, b[c].declarations)
  {
    hide Declared, Parents;
    if refs != [] {
      OpenRefsHere(b, c, refs[1..]);
    }
  }

  lemma {:induction false} OpenRefsOneMore(b: seq<Scope>, c: nat, i: nat, refs: seq<Ref>)
    requires Parents(b) && c < i < |b|
    requires forall name :: Declared(b, c, i, name) <==> Declared(b, c + 1, i, name) || name in b[c].declarations
    ensures OpenRefs(b, c, i, refs) == Without(OpenRefs(b, c + 1, i, refs), b[c].declarations)
  {
    hide Declared, Parents;
    if refs != [] {
      OpenRefsOneMore(b, c, i, refs[1..]);
      var head := if Declared(b, c + 1, i, refs[0].name) then [] else [refs[0]];
      WithoutConcat(head, OpenRefs(b, c + 1, i, refs[1..]), b[c].declarations);
      WithoutOne(refs[0], b[c].declarations);
    }
  }

  lemma {:induction false} OpenOneMore(b: seq<Scope>, c: nat, i: nat)
    requires Parents(b) && c < i < |b|
    requires forall j, name :: c < j < |b| ==>
      (Declared(b, c, j, name) <==> Declared(b, c + 1, j, name) || name in b[c].declarations)
    ensures OpenList(b, c, i) == Without(OpenList(b, c + 1, i), b[c].declarations)
    decreases |b| - i, 1, 0
  {
    hide Declared;
    assert ListsChildren(b, i);
    OpenRefsOneMore(b, c, i, b[i].references);
    OpenAllOneMore(b, c, i + 1, b[i].children);
    WithoutConcat(OpenRefs(b, c + 1, i, b[i].references), OpenAll(b, c + 1, i + 1, b[i].children), b[c].declarations);
  }

  lemma {:induction false} OpenAllOneMore(b: seq<Scope>, c: nat, lo: nat, children: seq<nat>)
    requires Parents(b) && c < lo && c < |b| && Young(children, lo, |b|)
    requires forall j, name :: c < j < |b| ==>
      (Declared(b, c, j, name) <==> Declared(b, c + 1, j, name) || name in b[c].declarations)
    ensures OpenAll(b, c, lo, children) == Without(OpenAll(b, c + 1, lo, children), b[c].declarations)
    decreases |b| - lo, 2, |children|
  {
    hide Declared;
    if children != [] {
      OpenOneMore(b, c, children[0]);
      OpenAllOneMore(b, c, lo, children[1..]);
      WithoutConcat(OpenList(b, c + 1, children[0]), OpenAll(b, c + 1, lo, children[1..]), b[c].declarations);
    }
  }

  lemma WithoutOne(r: Ref, names: set<string>)
    ensures Without([r], names) == (if r.name in names then [] else [r]) && Without([], names) == []
  {
    assert [r][1..] == [];
    assert Without([r][1..], names) == [];
  }

  lemma {:induction false} WithoutConcat(a: seq<Ref>, b: seq<Ref>, names: set<string>)
    ensures Without(a + b, names) == Without(a, names) + Without(b, names)
  {
    if a == [] {
      assert a + b == b;
    } else {
      assert (a + b)[0] == a[0] && (a + b)[1..] == a[1..] + b;
      WithoutConcat(a[1..], b, names);
    }
  }

  lemma {:induction false} WithoutMembers(refs: seq<Ref>, names: set<string>, r: Ref)
    ensures r in Without(refs, names) <==> r in refs && r.name !in names
  {
    if refs != [] {
      WithoutMembers(refs[1..], names, r);
      assert refs == [refs[0]] + refs[1..];
    }
  }

  // ------------------------------------------------------------ the visitor

  lemma WellFormedParents(scopes: seq<Scope>)
    requires WellFormed(scopes)
    ensures Parents(scopes)
  {}

  lemma GrownMeans(a: seq<Scope>, b: seq<Scope>, s: nat, x: Summary)
    requires Grown(a, b, s, x)
    ensures s < |a| <= |b|
  {}

  lemma ScopeChanged(scopes: seq<Scope>, i: nat, scope: Scope)
    requires WellFormed(scopes) && i < |scopes|
    requires scope.parent == scopes[i].parent && scope.kind == scopes[i].kind && scope.children == scopes[i].children
    ensures WellFormed(scopes[i := scope])
  {
    var b := scopes[i := scope];
    SameChildren(scopes, b);
    forall j | 0 <= j < |b|
      ensures ChildrenFit(b, j)
    {
      assert ChildrenFit(scopes, j);
      assert forall c :: 0 < c < |b| ==> ParentOf(b, c) == ParentOf(scopes, c);
    }
  }

  lemma ChildAdded(scopes: seq<Scope>, s: nat, kind: ScopeType)
    requires WellFormed(scopes) && s < |scopes|
    ensures WellFormed(WithChild(scopes, s, kind))
  {
    var b := WithChild(scopes, s, kind);
    ChildIsParented(scopes, s, kind);
    forall j | 0 <= j < |b|
      ensures ChildrenFit(b, j)
    {
      assert forall c :: 0 < c < |scopes| ==> ParentOf(b, c) == ParentOf(scopes, c);
      assert ParentOf(b, |scopes|) == s;
      if j < |scopes| {
        assert ChildrenFit(scopes, j);
      }
    }
  }

  class ScopeTree {
    var scopes: seq<Scope>

    constructor ()
      ensures scopes == [Scope(None, Program, {}, [], [])] && WellFormed(scopes)
    {
      scopes := [Scope(None, Program, {}, [], [])];
    }

    /** `new Scope(parent, type)`. */
    method NewScope(parent: nat, kind: ScopeType) returns (child: nat)
      requires WellFormed(scopes) && parent < |scopes|
      modifies this
      ensures scopes == WithChild(old(scopes), parent, kind) && child == |old(scopes)| < |scopes| && WellFormed(scopes)
    {
      ChildAdded(scopes, parent, kind);
      child := |scopes|;
      scopes := WithChild(scopes, parent, kind);
    }

    /** `scope.declarations.add(name)` for each of the names. */
    method Declare(s: nat, names: set<string>)
      requires WellFormed(scopes) && s < |scopes|
      modifies this
      ensures WellFormed(scopes) && Grown(old(scopes), scopes, s, Names(names))
    {
      var scope := scopes[s].(declarations := scopes[s].declarations + names);
      ScopeChanged(scopes, s, scope);
      WellFormedParents(scopes);
      hide WellFormed, Grown;
      DeclareGrows(scopes, s, names);
      scopes := scopes[s := scope];
    }

    /** `scope.references.push(...)`. */
    method Refer(s: nat, ref: Ref)
      requires WellFormed(scopes) && s < |scopes|
      modifies this
      ensures WellFormed(scopes) && Grown(old(scopes), scopes, s, Summary([ref], [], {}, {}))
    {
      var scope := scopes[s].(references := scopes[s].references + [ref]);
      ScopeChanged(scopes, s, scope);
      WellFormedParents(scopes);
      hide WellFormed, Grown;
      ReferGrows(scopes, s, ref);
      scopes := scopes[s := scope];
    }

    /** functionScope. */
    method FindFunctionScope(s: nat) returns (f: nat)
      requires Parents(scopes) && s < |scopes|
      ensures f == FunctionScope(scopes, s)
    {
      f := s;
      while !Hoists(scopes[f].kind)
        invariant f < |scopes| && FunctionScope(scopes, f) == FunctionScope(scopes, s)
        decreases f
      {
        f := scopes[f].parent.value;
      }
    }

    /** declarePattern for a `var`. */
    method Hoist(s: nat, names: set<string>)
      requires WellFormed(scopes) && s < |scopes|
      modifies this
      ensures WellFormed(scopes) && Grown(old(scopes), scopes, s, Summary([], [], {}, names))
    {
      WellFormedParents(scopes);
      var f := FindFunctionScope(s);
      var scope := scopes[f].(declarations := scopes[f].declarations + names);
      ScopeChanged(scopes, f, scope);
      hide WellFormed, Grown;
      HoistGrows(scopes, s, names);
      scopes := scopes[f := scope];
    }

    /** visit. */
    method Visit(node: Node, s: nat)
      requires WellFormed(scopes) && s < |scopes|
      modifies this
      ensures WellFormed(scopes) && Grown(old(scopes), scopes, s, Analyse(node))
      decreases node, 1
    {
      ghost var a := scopes;
      WellFormedParents(a);
      hide WellFormed, Parents, Grown;
      match node
      case Identifier(ref) =>
        Refer(s, ref);
      case Import(names) =>
        Declare(s, set n | n in names);
      case Variables(isVar, declarators) =>
        VisitDeclarators(isVar, declarators, s);
      case FunctionDeclaration(name, params, body) =>
        Declare(s, Named(name));
        ghost var b := scopes;
        GrownMeans(a, b, s, Names(Named(name)));
        VisitFunction(node, {"arguments"} + Named(name), params, body, s);
        GrownTwice(a, b, scopes, s, Names(Named(name)), OfFunction({"arguments"} + Named(name), params, body));
      case FunctionExpression(arrow, name, params, body) =>
        VisitFunction(node, (if arrow then {} else {"arguments"}) + Named(name), params, body, s);
      case Block(items) =>
        var child := NewScope(s, BlockScope);
        VisitAll(items, child);
        ChildGrows(a, scopes, s, BlockScope, AnalyseAll(items));
      case Class(isDeclaration, name, superClass, members) =>
        VisitClass(node, isDeclaration, name, superClass, members, s);
      case Catch(param, body) =>
        VisitCatch(node, param, body, s);
      case Group(children) =>
        VisitAll(children, s);
    }

    method VisitAll(nodes: seq<Node>, s: nat)
      requires WellFormed(scopes) && s < |scopes|
      modifies this
      ensures WellFormed(scopes) && Grown(old(scopes), scopes, s, AnalyseAll(nodes))
      decreases nodes, 0
    {
      ghost var a := scopes;
      WellFormedParents(a);
      hide WellFormed, Parents, Grown, Analyse;
      if nodes == [] {
        NothingGrown(a, s);
      } else {
        Visit(nodes[0], s);
        ghost var b := scopes;
        GrownMeans(a, b, s, Analyse(nodes[0]));
        VisitAll(nodes[1..], s);
        GrownTwice(a, b, scopes, s, Analyse(nodes[0]), AnalyseAll(nodes[1..]));
      }
    }

    method VisitOptional(node: Option<Node>, s: nat)
      requires WellFormed(scopes) && s < |scopes|
      modifies this
      ensures WellFormed(scopes) && Grown(old(scopes), scopes, s, AnalyseOptional(node))
      decreases node
    {
      WellFormedParents(scopes);
      hide WellFormed, Parents, Grown, Analyse;
      NothingGrown(scopes, s);
      if node.Some? {
        Visit(node.value, s);
      }
    }

    method VisitDeclarators(isVar: bool, declarators: seq<Declarator>, s: nat)
      requires WellFormed(scopes) && s < |scopes|
      modifies this
      ensures WellFormed(scopes) && Grown(old(scopes), scopes, s, AnalyseDeclarators(isVar, declarators))
      decreases declarators
    {
      ghost var a := scopes;
      WellFormedParents(a);
      hide WellFormed, Parents, Grown, AnalyseDeclarator;
      if declarators == [] {
        NothingGrown(a, s);
      } else {
        VisitDeclarator(isVar, declarators[0], s);
        ghost var b := scopes;
        GrownMeans(a, b, s, AnalyseDeclarator(isVar, declarators[0]));
        VisitDeclarators(isVar, declarators[1..], s);
        GrownTwice(a, b, scopes, s, AnalyseDeclarator(isVar, declarators[0]),
            AnalyseDeclarators(isVar, declarators[1..]));
      }
    }

    method VisitDeclarator(isVar: bool, declarator: Declarator, s: nat)
      requires WellFormed(scopes) && s < |scopes|
      modifies this
      ensures WellFormed(scopes) && Grown(old(scopes), scopes, s, AnalyseDeclarator(isVar, declarator))
      decreases declarator
    {
      ghost var a := scopes;
      hide WellFormed, Grown, AnalyseOptional, PatternNames;
      if isVar {
        Hoist(s, PatternNames(declarator.id));
      } else {
        Declare(s, PatternNames(declarator.id));
      }
      ghost var b := scopes;
      GrownMeans(a, b, s, DeclaredNames(isVar, PatternNames(declarator.id)));
      VisitOptional(declarator.init, s);
      GrownTwice(a, b, scopes, s, DeclaredNames(isVar, PatternNames(declarator.id)), AnalyseOptional(declarator.init));
    }

    /** The child scope of a function: its own names, its parameters with their defaults, and its body. */
    method VisitFunction(ghost node: Node, names: set<string>, params: seq<Pattern>, body: Node, s: nat)
      requires WellFormed(scopes) && s < |scopes|
      requires node.FunctionDeclaration? || node.FunctionExpression?
      requires node.params == params && node.body == body
      modifies this
      ensures WellFormed(scopes) && Grown(old(scopes), scopes, s, OfFunction(names, params, body))
      decreases node, 0
    {
      ghost var a := scopes;
      WellFormedParents(a);
      hide WellFormed, Parents, Grown, WithChild, Parameters, AnalyseBody;
      var child := NewScope(s, Function);
      ghost var mid := scopes;
      Declare(child, names);
      ghost var b := scopes;
      GrownMeans(mid, b, child, Names(names));
      VisitParameters(params, child);
      ghost var c := scopes;
      GrownMeans(b, c, child, Parameters(params));
      GrownTwice(mid, b, c, child, Names(names), Parameters(params));
      VisitBody(body, child);
      GrownTwice(mid, c, scopes, child, Names(names).Plus(Parameters(params)), AnalyseBody(body));
      ChildGrows(a, scopes, s, Function, Names(names).Plus(Parameters(params)).Plus(AnalyseBody(body)));
    }

    method VisitBody(body: Node, s: nat)
      requires WellFormed(scopes) && s < |scopes|
      modifies this
      ensures WellFormed(scopes) && Grown(old(scopes), scopes, s, AnalyseBody(body))
      decreases body, 2
    {
      hide WellFormed, Grown, Analyse, AnalyseAll;
      match body
      case Block(items) => VisitAll(items, s);
      case _ => Visit(body, s);
    }

    method VisitClass(ghost node: Node, isDeclaration: bool, name: Option<string>, superClass: Option<Node>,
            members: seq<Node>, s: nat)
      requires WellFormed(scopes) && s < |scopes|
      requires node == Class(isDeclaration, name, superClass, members)
      modifies this
      ensures WellFormed(scopes) && Grown(old(scopes), scopes, s, OfClass(isDeclaration, name, superClass, members))
      decreases node, 0
    {
      ghost var a := scopes;
      var outer := if isDeclaration then Named(name) else {};
      hide WellFormed, Grown, AnalyseOptional, AnalyseAll, Closed;
      Declare(s, outer);
      ghost var b := scopes;
      GrownMeans(a, b, s, Names(outer));
      VisitOptional(superClass, s);
      ghost var c := scopes;
      GrownMeans(b, c, s, AnalyseOptional(superClass));
      GrownTwice(a, b, c, s, Names(outer), AnalyseOptional(superClass));
      VisitInScope(ClassScope, Named(name), members, s);
      GrownTwice(a, c, scopes, s, Names(outer).Plus(AnalyseOptional(superClass)),
          Closed(Names(Named(name)).Plus(AnalyseAll(members)), ClassScope));
      ClosedBlocks(Names(Named(name)).Plus(AnalyseAll(members)));
    }

    /** A child scope that declares some names and then has nodes visited in it. */
    method VisitInScope(kind: ScopeType, names: set<string>, nodes: seq<Node>, s: nat)
      requires WellFormed(scopes) && s < |scopes|
      modifies this
      ensures WellFormed(scopes) && Grown(old(scopes), scopes, s, Closed(Names(names).Plus(AnalyseAll(nodes)), kind))
      decreases nodes, 1
    {
      ghost var a := scopes;
      WellFormedParents(a);
      hide *;
      var child := NewScope(s, kind);
      ghost var mid := scopes;
      Declare(child, names);
      ghost var b := scopes;
      GrownMeans(mid, b, child, Names(names));
      VisitAll(nodes, child);
      GrownTwice(mid, b, scopes, child, Names(names), AnalyseAll(nodes));
      ChildGrows(a, scopes, s, kind, Names(names).Plus(AnalyseAll(nodes)));
    }

    method VisitCatch(ghost node: Node, param: Pattern, body: Node, s: nat)
      requires WellFormed(scopes) && s < |scopes| && node == Catch(param, body)
      modifies this
      ensures WellFormed(scopes)
      ensures Grown(old(scopes), scopes, s, Names(PatternNames(param)).Plus(Analyse(body)).InBlock())
      decreases node, 0
    {
      ghost var a := scopes;
      WellFormedParents(a);
      hide WellFormed, Parents, Grown, WithChild, Analyse, Closed, PatternNames;
      var child := NewScope(s, BlockScope);
      ghost var mid := scopes;
      Declare(child, PatternNames(param));
      ghost var b := scopes;
      GrownMeans(mid, b, child, Names(PatternNames(param)));
      Visit(body, child);
      GrownTwice(mid, b, scopes, child, Names(PatternNames(param)), Analyse(body));
      ChildGrows(a, scopes, s, BlockScope, Names(PatternNames(param)).Plus(Analyse(body)));
      ClosedBlocks(Names(PatternNames(param)).Plus(Analyse(body)));
    }

    method VisitParameters(params: seq<Pattern>, s: nat)
      requires WellFormed(scopes) && s < |scopes|
      modifies this
      ensures WellFormed(scopes) && Grown(old(scopes), scopes, s, Parameters(params))
      decreases params
    {
      ghost var a := scopes;
      WellFormedParents(a);
      hide WellFormed, Parents, Grown, Defaults, PatternNames;
      if params == [] {
        NothingGrown(a, s);
      } else {
        Declare(s, PatternNames(params[0]));
        ghost var b := scopes;
        GrownMeans(a, b, s, Names(PatternNames(params[0])));
        VisitDefaults(params[0], s);
        ghost var c := scopes;
        GrownMeans(b, c, s, Defaults(params[0]));
        GrownTwice(a, b, c, s, Names(PatternNames(params[0])), Defaults(params[0]));
        VisitParameters(params[1..], s);
        GrownTwice(a, c, scopes, s, Names(PatternNames(params[0])).Plus(Defaults(params[0])), Parameters(params[1..]));
      }
    }

    /** visitPatternDefaults. */
    method VisitDefaults(p: Pattern, s: nat)
      requires WellFormed(scopes) && s < |scopes|
      modifies this
      ensures WellFormed(scopes) && Grown(old(scopes), scopes, s, Defaults(p))
      decreases p
    {
      WellFormedParents(scopes);
      hide WellFormed, Parents, Grown, Analyse, AllDefaults, PropertyDefaults;
      match p
      case Default(_, right) =>
        Visit(right, s);
      case Elements(items) =>
        VisitAllDefaults(items, s);
      case Properties(properties) =>
        VisitPropertyDefaults(properties, s);
      case Rest(argument) =>
        VisitDefaults(argument, s);
      case _ =>
        NothingGrown(scopes, s);
    }

    method VisitAllDefaults(items: seq<Pattern>, s: nat)
      requires WellFormed(scopes) && s < |scopes|
      modifies this
      ensures WellFormed(scopes) && Grown(old(scopes), scopes, s, AllDefaults(items))
      decreases items
    {
      ghost var a := scopes;
      WellFormedParents(a);
      hide WellFormed, Parents, Grown, Defaults;
      if items == [] {
        NothingGrown(a, s);
      } else {
        VisitDefaults(items[0], s);
        ghost var b := scopes;
        GrownMeans(a, b, s, Defaults(items[0]));
        VisitAllDefaults(items[1..], s);
        GrownTwice(a, b, scopes, s, Defaults(items[0]), AllDefaults(items[1..]));
      }
    }

    method VisitPropertyDefaults(properties: seq<Property>, s: nat)
      requires WellFormed(scopes) && s < |scopes|
      modifies this
      ensures WellFormed(scopes) && Grown(old(scopes), scopes, s, PropertyDefaults(properties))
      decreases properties
    {
      ghost var a := scopes;
      WellFormedParents(a);
      hide WellFormed, Parents, Grown, DefaultsOfProperty;
      if properties == [] {
        NothingGrown(a, s);
      } else {
        VisitProperty(properties[0], s);
        ghost var b := scopes;
        GrownMeans(a, b, s, DefaultsOfProperty(properties[0]));
        VisitPropertyDefaults(properties[1..], s);
        GrownTwice(a, b, scopes, s, DefaultsOfProperty(properties[0]), PropertyDefaults(properties[1..]));
      }
    }

    method VisitProperty(property: Property, s: nat)
      requires WellFormed(scopes) && s < |scopes|
      modifies this
      ensures WellFormed(scopes) && Grown(old(scopes), scopes, s, DefaultsOfProperty(property))
      decreases property
    {
      ghost var a := scopes;
      hide WellFormed, Grown, AnalyseOptional, Defaults;
      VisitOptional(property.computedKey, s);
      ghost var b := scopes;
      GrownMeans(a, b, s, AnalyseOptional(property.computedKey));
      VisitDefaults(property.value, s);
      GrownTwice(a, b, scopes, s, AnalyseOptional(property.computedKey), Defaults(property.value));
    }
  }

  lemma ClosedBlocks(x: Summary)
    ensures Closed(x, BlockScope) == x.InBlock() && Closed(x, ClassScope) == x.InBlock()
    ensures Closed(x, Function) == x.InFunction()
  {}

  function OfClass(isDeclaration: bool, name: Option<string>, superClass: Option<Node>, members: seq<Node>): Summary {
    Names(if isDeclaration then Named(name) else {}).Plus(AnalyseOptional(superClass))
      .Plus(Names(Named(name)).Plus(AnalyseAll(members)).InBlock())
  }

  function OfFunction(names: set<string>, params: seq<Pattern>, body: Node): Summary {
    Names(names).Plus(Parameters(params)).Plus(AnalyseBody(body)).InFunction()
  }

  // ------------------------------------------------------------ the unresolved references

  /** Scope `i` is `s` or lies in it. */
  ghost predicate Below(scopes: seq<Scope>, i: nat, s: nat)
    requires Parents(scopes) && i < |scopes|
  {
    i == s || (i > 0 && Below(scopes, ParentOf(scopes, i), s))
  }

  /** The reference stands in scope `i` and neither that nor any scope around it declares its name. */
  ghost predicate Unresolved(scopes: seq<Scope>, i: nat, r: Ref)
    requires Parents(scopes) && i < |scopes|
  {
    r in scopes[i].references && !Declared(scopes, 0, i, r.name)
  }

  ghost predicate Reported(scopes: seq<Scope>, s: nat, allowed: set<string>, r: Ref)
    requires Parents(scopes)
  {
    r.name !in allowed && exists i :: 0 <= i < |scopes| && Below(scopes, i, s) && Unresolved(scopes, i, r)
  }

  lemma {:induction false} BelowChild(scopes: seq<Scope>, i: nat, s: nat) returns (c: nat)
    requires WellFormed(scopes) && i < |scopes| && s < |scopes| && Below(scopes, i, s) && i != s
    ensures c in scopes[s].children && s < c < |scopes| && Below(scopes, i, c)
    decreases i
  {
    var p := ParentOf(scopes, i);
    if p == s {
      c := i;
      assert ChildrenFit(scopes, s);
    } else {
      c := BelowChild(scopes, p, s);
    }
  }

  lemma {:induction false} BelowParent(scopes: seq<Scope>, i: nat, c: nat)
    requires Parents(scopes) && i < |scopes| && 0 < c < |scopes| && Below(scopes, i, c)
    ensures Below(scopes, i, ParentOf(scopes, c))
    decreases i
  {
    if i != c {
      BelowParent(scopes, ParentOf(scopes, i), c);
    }
  }

  lemma ChildMeans(scopes: seq<Scope>, s: nat, c: nat)
    requires WellFormed(scopes) && s < |scopes| && c in scopes[s].children
    ensures Parents(scopes) && s < c < |scopes| && ParentOf(scopes, c) == s
  {
    assert ChildrenFit(scopes, s);
  }

  /** What a scope reports: its own unresolved references, then those of its children. */
  lemma ReportedParts(scopes: seq<Scope>, s: nat, allowed: set<string>, r: Ref)
    requires WellFormed(scopes) && s < |scopes|
    ensures Parents(scopes)
    ensures Reported(scopes, s, allowed, r) <==>
      (r.name !in allowed && Unresolved(scopes, s, r)) || exists c ::
        c in scopes[s].children && Reported(scopes, c, allowed, r)
  {
    WellFormedParents(scopes);
    hide WellFormed, Declared, Unresolved;
    if Reported(scopes, s, allowed, r) {
      var i :| 0 <= i < |scopes| && Below(scopes, i, s) && Unresolved(scopes, i, r);
      if i != s {
        var c := BelowChild(scopes, i, s);
        assert Reported(scopes, c, allowed, r);
      }
    }
    forall c | c in scopes[s].children && Reported(scopes, c, allowed, r)
      ensures Reported(scopes, s, allowed, r)
    {
      ChildMeans(scopes, s, c);
      var i :| 0 <= i < |scopes| && Below(scopes, i, c) && Unresolved(scopes, i, r);
      BelowParent(scopes, i, c);
    }
    if r.name !in allowed && Unresolved(scopes, s, r) {
      assert Below(scopes, s, s);
    }
  }

  /** The climb of collectUnresolved. */
  method IsResolved(scopes: seq<Scope>, s: nat, name: string) returns (resolved: bool)
    requires Parents(scopes) && scopes[0].parent.None? && s < |scopes|
    ensures resolved <==> Declared(scopes, 0, s, name)
  {
    var current: Option<nat> := Some(s);
    while current.Some?
      invariant current.Some? ==> current.value < |scopes|
      invariant Declared(scopes, 0, s, name) <==> current.Some? && Declared(scopes, 0, current.value, name)
      decreases if current.Some? then current.value + 1 else 0
    {
      if name in scopes[current.value].declarations {
        return true;
      }
      current := scopes[current.value].parent;
    }
    resolved := false;
  }

  ghost function LeftToReport(scopes: seq<Scope>, s: nat, refs: seq<Ref>, allowed: set<string>): seq<Ref>
    requires Parents(scopes) && s < |scopes|
  {
    Without(OpenRefs(scopes, 0, s, refs), allowed)
  }

  /** The references of one scope that no scope around it declares. */
  method OwnUnresolved(scopes: seq<Scope>, s: nat, allowed: set<string>) returns (output: seq<Ref>)
    requires WellFormed(scopes) && s < |scopes|
    ensures Parents(scopes) && output == LeftToReport(scopes, s, scopes[s].references, allowed)
  {
    WellFormedParents(scopes);
    assert scopes[0].parent.None?;
    hide WellFormed, Parents, Declared, LeftToReport;
    output := [];
    var references := scopes[s].references;
    assert references[0..] == references;
    for n := 0 to |references|
      invariant LeftToReport(scopes, s, references, allowed) ==
        output + LeftToReport(scopes, s, references[n..], allowed)
    {
      var reference := references[n];
      var resolved := IsResolved(scopes, s, reference.name);
      assert references[n..][0] == reference && references[n..][1..] == references[n + 1..];
      FirstRef(scopes, s, references[n..], allowed);
      if !resolved && reference.name !in allowed {
        output := output + [reference];
      }
    }
    assert references[|references|..] == [];
    NoRefs(scopes, s, allowed);
  }

  lemma NoRefs(scopes: seq<Scope>, s: nat, allowed: set<string>)
    requires Parents(scopes) && s < |scopes|
    ensures LeftToReport(scopes, s, [], allowed) == []
  {
    hide Declared, Parents;
  }

  lemma FirstRef(scopes: seq<Scope>, s: nat, refs: seq<Ref>, allowed: set<string>)
    requires Parents(scopes) && s < |scopes| && refs != []
    ensures LeftToReport(scopes, s, refs, allowed) ==
      (if Declared(scopes, 0, s, refs[0].name) || refs[0].name in allowed then [] else [refs[0]])
      + LeftToReport(scopes, s, refs[1..], allowed)
  {
    hide Declared, Parents, Without;
    var head := if Declared(scopes, 0, s, refs[0].name) then [] else [refs[0]];
    WithoutConcat(head, OpenRefs(scopes, 0, s, refs[1..]), allowed);
    WithoutOne(refs[0], allowed);
  }

  /** collectUnresolved: the scope's own references first, then those of its children, in order. */
  method CollectUnresolved(scopes: seq<Scope>, s: nat, allowed: set<string>) returns (output: seq<Ref>)
    requires WellFormed(scopes) && s < |scopes|
    ensures Parents(scopes) && output == Without(OpenList(scopes, 0, s), allowed)
    ensures forall r :: r in output <==> Reported(scopes, s, allowed, r)
    decreases |scopes| - s
  {
    WellFormedParents(scopes);
    ChildrenAreYoung(scopes, s);
    hide *;
    output := OwnUnresolved(scopes, s, allowed);
    var children := scopes[s].children;
    ghost var own := OpenRefs(scopes, 0, s, scopes[s].references);
    NoChildren(scopes, s + 1, own);
    OwnReport(scopes, s, allowed);
    for n := 0 to |children|
      invariant Young(children[..n], s + 1, |scopes|)
      invariant output == Without(own + OpenAll(scopes, 0, s + 1, children[..n]), allowed)
    {
      ChildMeans(scopes, s, children[n]);
      var more := CollectUnresolved(scopes, children[n], allowed);
      OneMoreChild(scopes, s + 1, children, n, own, allowed);
      output := output + more;
    }
    assert children[..|children|] == children;
    ListOf(scopes, s);
    forall r
      ensures r in output <==> Reported(scopes, s, allowed, r)
    {
      ListedIsReported(scopes, s, allowed, r);
    }
  }

  lemma OwnReport(scopes: seq<Scope>, s: nat, allowed: set<string>)
    requires Parents(scopes) && s < |scopes|
    ensures var refs := scopes[s].references;
      LeftToReport(scopes, s, refs, allowed) == Without(OpenRefs(scopes, 0, s, refs), allowed)
  {}

  lemma ChildrenAreYoung(scopes: seq<Scope>, s: nat)
    requires Parents(scopes) && s < |scopes|
    ensures Young(scopes[s].children, s + 1, |scopes|)
  {
    assert ListsChildren(scopes, s);
  }

  lemma NoChildren(scopes: seq<Scope>, lo: nat, own: seq<Ref>)
    requires Parents(scopes)
    ensures forall children: seq<nat> :: Young(children[..0], lo, |scopes|)
    ensures Young([], lo, |scopes|) && own + OpenAll(scopes, 0, lo, []) == own
  {}

  lemma ListOf(scopes: seq<Scope>, s: nat)
    requires Parents(scopes) && s < |scopes|
    ensures Young(scopes[s].children, s + 1, |scopes|)
    ensures OpenList(scopes, 0, s) ==
      OpenRefs(scopes, 0, s, scopes[s].references) + OpenAll(scopes, 0, s + 1, scopes[s].children)
  {
    assert ListsChildren(scopes, s);
  }

  lemma OneMoreChild(scopes: seq<Scope>, lo: nat, children: seq<nat>, n: nat, own: seq<Ref>, allowed: set<string>)
    requires Parents(scopes) && Young(children, lo, |scopes|) && n < |children|
    ensures Young(children[..n], lo, |scopes|) && Young(children[..n + 1], lo, |scopes|) && children[n] < |scopes|
    ensures Without(own + OpenAll(scopes, 0, lo, children[..n + 1]), allowed) ==
      Without(own + OpenAll(scopes, 0, lo, children[..n]), allowed) + Without(OpenList(scopes, 0, children[n]), allowed)
  {
    var before, last := OpenAll(scopes, 0, lo, children[..n]), OpenList(scopes, 0, children[n]);
    hide OpenList, Parents;
    assert children[..n + 1] == children[..n] + [children[n]];
    assert OpenAll(scopes, 0, lo, [children[n]]) == last by {
      assert [children[n]][1..] == [];
      assert OpenAll(scopes, 0, lo, [children[n]][1..]) == [];
    }
    OpenAllConcat(scopes, 0, lo, children[..n], [children[n]]);
    assert own + (before + last) == (own + before) + last;
    WithoutConcat(own + before, last, allowed);
  }

  lemma {:induction false} OpenRefsMembers(scopes: seq<Scope>, n: nat, i: nat, refs: seq<Ref>, r: Ref)
    requires Parents(scopes) && i < |scopes|
    ensures r in OpenRefs(scopes, n, i, refs) <==> r in refs && !Declared(scopes, n, i, r.name)
  {
    hide Declared, Parents;
    if refs != [] {
      OpenRefsMembers(scopes, n, i, refs[1..], r);
      assert refs == [refs[0]] + refs[1..];
    }
  }

  lemma {:induction false} OpenAllMembers(scopes: seq<Scope>, n: nat, lo: nat, children: seq<nat>, r: Ref)
    requires Parents(scopes) && Young(children, lo, |scopes|)
    ensures r in OpenAll(scopes, n, lo, children) <==> exists c :: c in children && r in OpenList(scopes, n, c)
    decreases |children|
  {
    hide OpenList, Parents;
    if children != [] {
      var rest := children[1..];
      OpenAllMembers(scopes, n, lo, rest, r);
      assert forall c :: c in children <==> c == children[0] || c in rest;
      if exists c :: c in rest && r in OpenList(scopes, n, c) {
        var c :| c in rest && r in OpenList(scopes, n, c);
        assert c in children && r in OpenList(scopes, n, c);
      }
    }
  }

  /** The collected list holds exactly what is to be reported. */
  lemma {:induction false} ListedIsReported(scopes: seq<Scope>, s: nat, allowed: set<string>, r: Ref)
    requires WellFormed(scopes) && s < |scopes|
    ensures Parents(scopes) && (r in Without(OpenList(scopes, 0, s), allowed) <==> Reported(scopes, s, allowed, r))
    decreases |scopes| - s
  {
    WellFormedParents(scopes);
    hide *;
    var children := scopes[s].children;
    ReportedParts(scopes, s, allowed, r);
    ListOf(scopes, s);
    WithoutMembers(OpenList(scopes, 0, s), allowed, r);
    OpenRefsMembers(scopes, 0, s, scopes[s].references, r);
    OpenAllMembers(scopes, 0, s + 1, children, r);
    UnresolvedIs(scopes, s, r);
    forall c | c in children
      ensures c < |scopes| && (r.name !in allowed && r in OpenList(scopes, 0, c) <==> Reported(scopes, c, allowed, r))
    {
      ChildMeans(scopes, s, c);
      ListedIsReported(scopes, c, allowed, r);
      WithoutMembers(OpenList(scopes, 0, c), allowed, r);
    }
    NotAllowed(scopes, s, allowed, r);
  }

  lemma UnresolvedIs(scopes: seq<Scope>, s: nat, r: Ref)
    requires Parents(scopes) && s < |scopes|
    ensures Unresolved(scopes, s, r) <==> r in scopes[s].references && !Declared(scopes, 0, s, r.name)
  {}

  lemma NotAllowed(scopes: seq<Scope>, s: nat, allowed: set<string>, r: Ref)
    requires Parents(scopes)
    ensures Reported(scopes, s, allowed, r) ==> r.name !in allowed
  {}

  // ------------------------------------------------------------ the whole check

  /** The free identifiers of a program, by the bottom-up definition: those of a scope before those of the scopes in
      it. */
  function FreeIdentifiers(program: seq<Node>): seq<Ref> {
    AnalyseAll(program).InFunction().inner
  }

  lemma ProgramOpen(b: seq<Scope>, x: Summary)
    requires var a := [Scope(None, Program, {}, [], [])]; Parents(a) && Grown(a, b, 0, x)
    ensures Parents(b) && x.InFunction().inner == OpenList(b, 0, 0)
  {
    var a := [Scope(None, Program, {}, [], [])];
    hide OpenAll, OpenList;
    GrownAt(a, b, 0, x, 0);
    assert FunctionScope(a, 0) == 0;
    assert b[0].declarations == x.names + x.vars && b[0].references == x.own;
    GrownInner(a, b, 0, x);
    assert NewChildren(a, b, 0) == b[0].children;
    LaterParents(a, b, 0, x);
    hide Grown;
    OpenCloses(b, 0);
  }

  /** findFreeIdentifiers, from the parsed program on: the scope tree built step by step and then climbed reports
      exactly the free identifiers that are not allowed globals, each as often as it occurs and in this order. */
  method FindFreeIdentifiers(program: seq<Node>, allowed: set<string>) returns (output: seq<Ref>)
    ensures output == Without(FreeIdentifiers(program), allowed)
    ensures forall r :: r in output <==> r in FreeIdentifiers(program) && r.name !in allowed
  {
    var tree := new ScopeTree();
    ghost var a := tree.scopes;
    WellFormedParents(a);
    hide WellFormed, Parents, Grown, AnalyseAll, Reported, OpenList, Without;
    tree.VisitAll(program, 0);
    GrownMeans(a, tree.scopes, 0, AnalyseAll(program));
    output := CollectUnresolved(tree.scopes, 0, allowed);
    ProgramOpen(tree.scopes, AnalyseAll(program));
    forall r
      ensures r in output <==> r in FreeIdentifiers(program) && r.name !in allowed
    {
      WithoutMembers(FreeIdentifiers(program), allowed, r);
    }
  }

  lemma {:induction false} AnalyseConcat(a: seq<Node>, b: seq<Node>)
    ensures AnalyseAll(a + b) == AnalyseAll(a).Plus(AnalyseAll(b))
  {
    hide Analyse;
    if a == [] {
      assert a + b == b;
    } else {
      assert (a + b)[0] == a[0] && (a + b)[1..] == a[1..] + b;
      AnalyseConcat(a[1..], b);
    }
  }

  lemma {:induction false} WithoutCount(refs: seq<Ref>, names: set<string>, r: Ref)
    ensures multiset(Without(refs, names))[r] == if r.name in names then 0 else multiset(refs)[r]
  {
    if refs != [] {
      WithoutCount(refs[1..], names, r);
      assert refs == [refs[0]] + refs[1..];
    }
  }

  lemma WithoutReordered(a: seq<Ref>, b: seq<Ref>, names: set<string>)
    requires multiset(a) == multiset(b)
    ensures multiset(Without(a, names)) == multiset(Without(b, names))
  {
    forall r
      ensures multiset(Without(a, names))[r] == multiset(Without(b, names))[r]
    {
      WithoutCount(a, names, r);
      WithoutCount(b, names, r);
    }
  }

  /** The order of declarations does not matter: two parts of a program can change places, in the program or in a
      block. The same identifiers are free, each as often as before. */
  lemma OrderIsIrrelevant(a: seq<Node>, b: seq<Node>)
    ensures multiset(FreeIdentifiers(a + b)) == multiset(FreeIdentifiers(b + a))
    ensures var x, y := Analyse(Block(a + b)), Analyse(Block(b + a));
      multiset(x.inner) == multiset(y.inner) && x.own == y.own && x.names == y.names && x.vars == y.vars
  {
    AnalyseConcat(a, b);
    AnalyseConcat(b, a);
    hide AnalyseAll, Without;
    var x, y := AnalyseAll(a), AnalyseAll(b);
    var xy, yx := x.Plus(y), y.Plus(x);
    assert xy.names == yx.names && xy.vars == yx.vars;
    assert multiset(xy.own + xy.inner) == multiset(yx.own + yx.inner);
    WithoutReordered(xy.own + xy.inner, yx.own + yx.inner, xy.names + xy.vars);
    WithoutReordered(xy.own + xy.inner, yx.own + yx.inner, xy.names);
  }
}
