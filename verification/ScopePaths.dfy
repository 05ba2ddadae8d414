/** What it means for an identifier to be free, by its occurrences: the ways that lead from the program to a reference,
    and the scopes on such a way that bind its name. */
module ScopePaths {
  import opened ScopeCheck
  import opened Wrappers

  // ------------------------------------------------------------ the parts of patterns and nodes

  ghost predicate Binds(p: Pattern, name: string)
    decreases p
  {
    match p
    case Binding(bound) => bound == name
    case Rest(argument) => Binds(argument, name)
    case Default(left, _) => Binds(left, name)
    case Elements(items) => exists i :: 0 <= i < |items| && Binds(items[i], name)
    case Properties(properties) => exists i :: 0 <= i < |properties| && Binds(properties[i].value, name)
    case NoBinding => false
  }

  /** `child` is a default or a computed key that is evaluated where the parameter is bound. */
  ghost predicate Evaluates(p: Pattern, child: Node)
    decreases p
  {
    match p
    case Rest(argument) => Evaluates(argument, child)
    case Default(_, right) => child == right
    case Elements(items) => exists i :: 0 <= i < |items| && Evaluates(items[i], child)
    case Properties(properties) =>
      exists i :: 0 <= i < |properties|
        && (properties[i].computedKey == Some(child) || Evaluates(properties[i].value, child))
    case _ => false
  }

  /** `child` is visited in the scope in which `node` stands. */
  ghost predicate Beside(node: Node, child: Node) {
    match node
    case Variables(_, declarators) => exists i :: 0 <= i < |declarators| && declarators[i].init == Some(child)
    case Class(_, _, superClass, _) => superClass == Some(child)
    case Group(children) => child in children
    case _ => false
  }

  /** `child` is visited in the scope that `node` opens. The block that is a function's body opens none of its own. */
  ghost predicate Inside(node: Node, child: Node) {
    match node
    case FunctionDeclaration(_, params, body) => InParameters(params, child) || InBody(body, child)
    case FunctionExpression(_, _, params, body) => InParameters(params, child) || InBody(body, child)
    case Block(items) => child in items
    case Class(_, _, _, members) => child in members
    case Catch(_, body) => child == body
    case _ => false
  }

  ghost predicate InParameters(params: seq<Pattern>, child: Node) {
    exists i :: 0 <= i < |params| && Evaluates(params[i], child)
  }

  ghost predicate InBody(body: Node, child: Node) {
    if body.Block? then child in body.items else child == body
  }

  predicate IsFunction(node: Node) {
    node.FunctionDeclaration? || node.FunctionExpression?
  }

  // ------------------------------------------------------------ what declares a name

  /** In the scope in which the node stands. */
  ghost predicate Declares(node: Node, name: string) {
    match node
    case Import(names) => name in names
    case Variables(isVar, _) => !isVar && BindsVariable(node, name)
    case FunctionDeclaration(own, _, _) => own == Some(name)
    case Class(isDeclaration, own, _, _) => isDeclaration && own == Some(name)
    case _ => false
  }

  ghost predicate DeclaresVar(node: Node, name: string) {
    node.Variables? && node.isVar && BindsVariable(node, name)
  }

  ghost predicate BindsVariable(node: Node, name: string)
    requires node.Variables?
  {
    exists i :: 0 <= i < |node.declarators| && Binds(node.declarators[i].id, name)
  }

  /** In the scope that the node opens. */
  ghost predicate DeclaresWithin(node: Node, name: string) {
    match node
    case FunctionDeclaration(own, params, _) => name == "arguments" || own == Some(name) || BindsParameter(params, name)
    case FunctionExpression(arrow, own, params, _) =>
      (name == "arguments" && !arrow) || own == Some(name) || BindsParameter(params, name)
    case Class(_, own, _, _) => own == Some(name)
    case Catch(param, _) => Binds(param, name)
    case _ => false
  }

  ghost predicate BindsParameter(params: seq<Pattern>, name: string) {
    exists i :: 0 <= i < |params| && Binds(params[i], name)
  }

  // ------------------------------------------------------------ ways through a program

  /** A way from a node down to another: along what is visited in the same scope, and into scopes that are opened. */
  datatype Way = Stop(node: Node) | Along(node: Node, rest: Way) | Into(node: Node, rest: Way)

  ghost predicate Valid(w: Way) {
    match w
    case Stop(_) => true
    case Along(node, rest) => Beside(node, rest.node) && Valid(rest)
    case Into(node, rest) => Inside(node, rest.node) && Valid(rest)
  }

  function End(w: Way): Node {
    match w
    case Stop(node) => node
    case Along(_, rest) => End(rest)
    case Into(_, rest) => End(rest)
  }

  /** The way enters no scope. */
  predicate Level(w: Way) {
    match w
    case Stop(_) => true
    case Along(_, rest) => Level(rest)
    case Into(_, _) => false
  }

  /** The way enters no function, but perhaps blocks, classes and catch clauses. */
  predicate WithinFunction(w: Way) {
    match w
    case Stop(_) => true
    case Along(_, rest) => WithinFunction(rest)
    case Into(node, rest) => !IsFunction(node) && WithinFunction(rest)
  }

  /** A declaration for the scope in which the way begins; `hoisting` if that is the scope of a function or of the
      program. */
  ghost predicate LeadsToDeclaration(w: Way, name: string, hoisting: bool) {
    Valid(w) && ((Level(w) && Declares(End(w), name)) || (hoisting && WithinFunction(w) && DeclaresVar(End(w), name)))
  }

  /** The scope that `node` opens binds the name: by itself or by a declaration in it. */
  ghost predicate ScopeBinds(node: Node, name: string) {
    DeclaresWithin(node, name)
      || exists w: Way :: Inside(node, w.node) && LeadsToDeclaration(w, name, IsFunction(node))
  }

  ghost predicate ProgramBinds(program: seq<Node>, name: string) {
    exists w: Way :: w.node in program && LeadsToDeclaration(w, name, true)
  }

  /** Some scope that the way enters binds the name. */
  ghost predicate Bound(w: Way, name: string) {
    match w
    case Stop(_) => false
    case Along(_, rest) => Bound(rest, name)
    case Into(node, rest) => ScopeBinds(node, name) || Bound(rest, name)
  }

  /** The way leads from the program to the reference, and nothing on it binds the reference's name. */
  ghost predicate LeadsToFree(program: seq<Node>, w: Way, r: Ref) {
    w.node in program && Valid(w) && End(w) == Identifier(r) && !Bound(w, r.name)
  }

  // ------------------------------------------------------------ what a summary says, one fact at a time

  datatype Fact = Own(r: Ref) | Inner(r: Ref) | Name(name: string) | Var(name: string)

  predicate Has(s: Summary, f: Fact) {
    match f
    case Own(r) => r in s.own
    case Inner(r) => r in s.inner
    case Name(name) => name in s.names
    case Var(name) => name in s.vars
  }

  lemma HasPlus(a: Summary, b: Summary, f: Fact)
    ensures Has(a.Plus(b), f) <==> Has(a, f) || Has(b, f)
    ensures !Has(Nothing, f)
  {}

  ghost predicate NodeHas(node: Node, f: Fact) {
    Has(Analyse(node), f)
  }

  ghost predicate OptionHas(node: Option<Node>, f: Fact) {
    node.Some? && NodeHas(node.value, f)
  }

  ghost predicate BesideHas(node: Node, f: Fact) {
    exists c :: Beside(node, c) && NodeHas(c, f)
  }

  ghost predicate InsideHas(node: Node, f: Fact) {
    exists c :: Inside(node, c) && NodeHas(c, f)
  }

  ghost predicate DefaultsHave(p: Pattern, f: Fact) {
    exists c :: Evaluates(p, c) && NodeHas(c, f)
  }

  lemma {:induction false} AllHave(nodes: seq<Node>, f: Fact)
    ensures Has(AnalyseAll(nodes), f) <==> exists c :: c in nodes && NodeHas(c, f)
  {
    HasPlus(Nothing, Nothing, f);
    if nodes != [] {
      AllHave(nodes[1..], f);
      HasPlus(Analyse(nodes[0]), AnalyseAll(nodes[1..]), f);
      assert NodeHas(nodes[0], f) <==> Has(Analyse(nodes[0]), f);
      assert AnalyseAll(nodes) == Analyse(nodes[0]).Plus(AnalyseAll(nodes[1..]));
      hide *;
      assert forall c :: c in nodes <==> c == nodes[0] || c in nodes[1..];
    }
  }

  lemma OptionalHas(node: Option<Node>, f: Fact)
    ensures Has(AnalyseOptional(node), f) <==> OptionHas(node, f)
  {
    HasPlus(Nothing, Nothing, f);
    hide Analyse, Has;
  }

  // ------------------------------------------------------------ patterns

  lemma {:induction false} NamesAreBound(p: Pattern, name: string)
    ensures name in PatternNames(p) <==> Binds(p, name)
    decreases p
  {
    match p
    case Binding(_) =>
    case Rest(argument) => NamesAreBound(argument, name);
    case Default(left, _) => NamesAreBound(left, name);
    case Elements(items) => AllNamesAreBound(items, name);
    case Properties(properties) => PropertyNamesAreBound(properties, name);
    case NoBinding =>
  }

  lemma {:induction false} AllNamesAreBound(items: seq<Pattern>, name: string)
    ensures name in AllPatternNames(items) <==> exists i :: 0 <= i < |items| && Binds(items[i], name)
    decreases items
  {
    if items != [] {
      NamesAreBound(items[0], name);
      AllNamesAreBound(items[1..], name);
      hide PatternNames, Binds;
      assert forall i :: 0 < i < |items| ==> items[i] == items[1..][i - 1];
    }
  }

  lemma {:induction false} NamesOfPropertyAreBound(property: Property, name: string)
    ensures name in NamesOfProperty(property) <==> Binds(property.value, name)
    decreases property
  {
    NamesAreBound(property.value, name);
  }

  lemma {:induction false} PropertyNamesAreBound(properties: seq<Property>, name: string)
    ensures name in PropertyNames(properties) <==>
      exists i :: 0 <= i < |properties| && Binds(properties[i].value, name)
    decreases properties
  {
    if properties != [] {
      NamesOfPropertyAreBound(properties[0], name);
      PropertyNamesAreBound(properties[1..], name);
      hide PatternNames, Binds;
      assert forall i :: 0 < i < |properties| ==> properties[i] == properties[1..][i - 1];
    }
  }

  lemma {:induction false} DefaultsAre(p: Pattern, f: Fact)
    ensures Has(Defaults(p), f) <==> DefaultsHave(p, f)
    decreases p
  {
    HasPlus(Nothing, Nothing, f);
    hide Analyse, Has;
    match p
    case Rest(argument) => DefaultsAre(argument, f);
    case Default(_, right) => assert Evaluates(p, right);
    case Elements(items) =>
      AllDefaultsAre(items, f);
      if i :| 0 <= i < |items| && DefaultsHave(items[i], f) {
        var c :| Evaluates(items[i], c) && NodeHas(c, f);
        assert Evaluates(p, c);
      }
    case Properties(properties) =>
      PropertyDefaultsAre(properties, f);
      if i :| 0 <= i < |properties| && PropertyHas(properties[i], f) {
        if OptionHas(properties[i].computedKey, f) {
          assert Evaluates(p, properties[i].computedKey.value);
        } else {
          var c :| Evaluates(properties[i].value, c) && NodeHas(c, f);
          assert Evaluates(p, c);
        }
      }
    case _ =>
  }

  lemma {:induction false} AllDefaultsAre(items: seq<Pattern>, f: Fact)
    ensures Has(AllDefaults(items), f) <==> exists i :: 0 <= i < |items| && DefaultsHave(items[i], f)
    decreases items
  {
    HasPlus(Nothing, Nothing, f);
    if items != [] {
      DefaultsAre(items[0], f);
      AllDefaultsAre(items[1..], f);
      HasPlus(Defaults(items[0]), AllDefaults(items[1..]), f);
      hide Defaults, Has, DefaultsHave;
      assert forall i :: 0 < i < |items| ==> items[i] == items[1..][i - 1];
    }
  }

  ghost predicate PropertyHas(property: Property, f: Fact) {
    OptionHas(property.computedKey, f) || DefaultsHave(property.value, f)
  }

  lemma {:induction false} DefaultsOfPropertyAre(property: Property, f: Fact)
    ensures Has(DefaultsOfProperty(property), f) <==> PropertyHas(property, f)
    decreases property
  {
    OptionalHas(property.computedKey, f);
    DefaultsAre(property.value, f);
    HasPlus(AnalyseOptional(property.computedKey), Defaults(property.value), f);
    hide AnalyseOptional, Defaults, Has, DefaultsHave, OptionHas;
  }

  lemma {:induction false} PropertyDefaultsAre(properties: seq<Property>, f: Fact)
    ensures Has(PropertyDefaults(properties), f) <==>
      exists i :: 0 <= i < |properties| && PropertyHas(properties[i], f)
    decreases properties
  {
    HasPlus(Nothing, Nothing, f);
    if properties != [] {
      DefaultsOfPropertyAre(properties[0], f);
      PropertyDefaultsAre(properties[1..], f);
      HasPlus(DefaultsOfProperty(properties[0]), PropertyDefaults(properties[1..]), f);
      hide DefaultsOfProperty, Has, PropertyHas;
      assert forall i :: 0 < i < |properties| ==> properties[i] == properties[1..][i - 1];
    }
  }

  lemma {:induction false} ParametersHave(params: seq<Pattern>, f: Fact)
    ensures Has(Parameters(params), f) <==>
      (f.Name? && BindsParameter(params, f.name)) || exists i :: 0 <= i < |params| && DefaultsHave(params[i], f)
  {
    HasPlus(Nothing, Nothing, f);
    if params != [] {
      var names := Names(PatternNames(params[0]));
      ParametersHave(params[1..], f);
      DefaultsAre(params[0], f);
      HasPlus(names, Defaults(params[0]), f);
      HasPlus(names.Plus(Defaults(params[0])), Parameters(params[1..]), f);
      if f.Name? {
        NamesAreBound(params[0], f.name);
      }
      assert Has(names, f) <==> f.Name? && Binds(params[0], f.name);
      hide Defaults, Has, DefaultsHave, Binds, PatternNames;
      assert forall i :: 0 < i < |params| ==> params[i] == params[1..][i - 1];
    }
  }

  lemma {:induction false} DeclaratorsHave(isVar: bool, declarators: seq<Declarator>, f: Fact)
    ensures Has(AnalyseDeclarators(isVar, declarators), f) <==>
      exists i :: 0 <= i < |declarators| && DeclaratorHas(isVar, declarators[i], f)
  {
    HasPlus(Nothing, Nothing, f);
    if declarators != [] {
      DeclaratorsHave(isVar, declarators[1..], f);
      OneDeclaratorHas(isVar, declarators[0], f);
      HasPlus(AnalyseDeclarator(isVar, declarators[0]), AnalyseDeclarators(isVar, declarators[1..]), f);
      hide AnalyseDeclarator, Has, DeclaratorHas;
      assert forall i :: 0 < i < |declarators| ==> declarators[i] == declarators[1..][i - 1];
    }
  }

  ghost predicate DeclaratorHas(isVar: bool, d: Declarator, f: Fact) {
    || (f.Name? && !isVar && Binds(d.id, f.name)) || (f.Var? && isVar && Binds(d.id, f.name)) || OptionHas(d.init, f)
  }

  lemma OneDeclaratorHas(isVar: bool, d: Declarator, f: Fact)
    ensures Has(AnalyseDeclarator(isVar, d), f) <==> DeclaratorHas(isVar, d, f)
  {
    if f.Name? || f.Var? {
      NamesAreBound(d.id, f.name);
    }
    OptionalHas(d.init, f);
    hide PatternNames, Binds, AnalyseOptional, OptionHas;
    HasPlus(DeclaredNames(isVar, PatternNames(d.id)), AnalyseOptional(d.init), f);
  }

  // ------------------------------------------------------------ nodes

  ghost predicate Here(node: Node, f: Fact) {
    match f
    case Own(r) => node == Identifier(r)
    case Inner(_) => false
    case Name(name) => Declares(node, name)
    case Var(name) => DeclaresVar(node, name)
  }

  ghost predicate Closes(node: Node, name: string) {
    DeclaresWithin(node, name) || InsideHas(node, Name(name)) || (IsFunction(node) && InsideHas(node, Var(name)))
  }

  /** What comes out of the scope that the node opens. */
  ghost predicate ThroughScope(node: Node, f: Fact) {
    match f
    case Own(_) => false
    case Inner(r) => (InsideHas(node, Own(r)) || InsideHas(node, Inner(r))) && !Closes(node, r.name)
    case Name(_) => false
    case Var(_) => !IsFunction(node) && InsideHas(node, f)
  }

  ghost predicate Splits(node: Node, f: Fact) {
    NodeHas(node, f) <==> Here(node, f) || BesideHas(node, f) || ThroughScope(node, f)
  }

  /** The summary of what a scope holds. */
  ghost predicate Contents(node: Node, x: Summary) {
    forall f :: Has(x, f) <==> InsideHas(node, f) || (f.Name? && DeclaresWithin(node, f.name))
  }

  lemma ClosedHas(node: Node, x: Summary, f: Fact)
    requires Contents(node, x)
    ensures !IsFunction(node) ==> (Has(x.InBlock(), f) <==> ThroughScope(node, f))
    ensures IsFunction(node) ==> (Has(x.InFunction(), f) <==> ThroughScope(node, f))
  {
    if f.Inner? {
      WithoutMembers(x.own + x.inner, x.names, f.r);
      WithoutMembers(x.own + x.inner, x.names + x.vars, f.r);
      assert Has(x, Own(f.r)) <==> InsideHas(node, Own(f.r));
      assert Has(x, Inner(f.r)) <==> InsideHas(node, Inner(f.r));
      assert Has(x, Name(f.r.name)) <==> InsideHas(node, Name(f.r.name)) || DeclaresWithin(node, f.r.name);
      assert Has(x, Var(f.r.name)) <==> InsideHas(node, Var(f.r.name));
    }
    hide InsideHas, DeclaresWithin, Without;
  }

  lemma GroupSplits(node: Node, f: Fact)
    requires node.Group? || node.Identifier? || node.Import? || node.Variables?
    ensures Splits(node, f)
  {
    match node
    case Group(children) =>
      AllHave(children, f);
    case Variables(isVar, declarators) =>
      DeclaratorsHave(isVar, declarators, f);
      VariablesSplit(node, f);
    case _ =>
  }

  lemma VariablesSplit(node: Node, f: Fact)
    requires node.Variables?
    ensures (exists i :: 0 <= i < |node.declarators| && DeclaratorHas(node.isVar, node.declarators[i], f)) <==>
      Here(node, f) || BesideHas(node, f)
  {
    hide Binds, NodeHas;
    if BesideHas(node, f) {
      var c :| Beside(node, c) && NodeHas(c, f);
      var i :| 0 <= i < |node.declarators| && node.declarators[i].init == Some(c);
      assert DeclaratorHas(node.isVar, node.declarators[i], f);
    }
    if Here(node, f) {
      var i :| 0 <= i < |node.declarators| && Binds(node.declarators[i].id, f.name);
      assert DeclaratorHas(node.isVar, node.declarators[i], f);
    }
    if i :| 0 <= i < |node.declarators| && DeclaratorHas(node.isVar, node.declarators[i], f) {
      if OptionHas(node.declarators[i].init, f) {
        assert Beside(node, node.declarators[i].init.value);
      }
    }
  }

  lemma BodyHas(body: Node, f: Fact)
    ensures Has(AnalyseBody(body), f) <==> exists c :: InBody(body, c) && NodeHas(c, f)
  {
    if body.Block? {
      AllHave(body.items, f);
    } else {
      assert InBody(body, body);
    }
  }

  lemma FunctionContents(node: Node, names: set<string>, f: Fact)
    requires IsFunction(node)
    requires forall name :: DeclaresWithin(node, name) <==> name in names || BindsParameter(node.params, name)
    ensures Has(Names(names).Plus(Parameters(node.params)).Plus(AnalyseBody(node.body)), f) <==>
      InsideHas(node, f) || (f.Name? && DeclaresWithin(node, f.name))
  {
    hide DeclaresWithin;
    var own, params, body := Names(names), Parameters(node.params), AnalyseBody(node.body);
    ParametersHave(node.params, f);
    BodyHas(node.body, f);
    assert Has(own, f) <==> f.Name? && f.name in names;
    hide *;
    HasPlus(own, params, f);
    HasPlus(own.Plus(params), body, f);
    FunctionInside(node, f);
  }

  lemma FunctionInside(node: Node, f: Fact)
    requires IsFunction(node)
    ensures InsideHas(node, f) <==>
      (exists i :: 0 <= i < |node.params| && DefaultsHave(node.params[i], f))
        || exists c :: InBody(node.body, c) && NodeHas(c, f)
  {
    hide NodeHas, InBody, Evaluates;
    assert forall c :: Inside(node, c) <==> InParameters(node.params, c) || InBody(node.body, c);
    if InsideHas(node, f) {
      var c :| Inside(node, c) && NodeHas(c, f);
      if InParameters(node.params, c) {
        var i :| 0 <= i < |node.params| && Evaluates(node.params[i], c);
        assert DefaultsHave(node.params[i], f);
      }
    }
    if i :| 0 <= i < |node.params| && DefaultsHave(node.params[i], f) {
      var c :| Evaluates(node.params[i], c) && NodeHas(c, f);
      assert Inside(node, c);
    }
  }

  lemma DeclarationSplits(node: Node, f: Fact)
    requires node.FunctionDeclaration?
    ensures Splits(node, f)
  {
    var names := {"arguments"} + Named(node.name);
    var x := Names(names).Plus(Parameters(node.params)).Plus(AnalyseBody(node.body));
    forall g
      ensures Has(x, g) <==> InsideHas(node, g) || (g.Name? && DeclaresWithin(node, g.name))
    {
      FunctionContents(node, names, g);
    }
    assert Contents(node, x);
    ClosedHas(node, x, f);
    HasPlus(Names(Named(node.name)), x.InFunction(), f);
    assert Analyse(node) == Names(Named(node.name)).Plus(x.InFunction());
    assert Has(Names(Named(node.name)), f) <==> Here(node, f);
    assert !BesideHas(node, f);
    hide Has, Analyse, Here, BesideHas, ThroughScope;
  }

  lemma ExpressionSplits(node: Node, f: Fact)
    requires node.FunctionExpression?
    ensures Splits(node, f)
  {
    var names := (if node.arrow then {} else {"arguments"}) + Named(node.name);
    var x := Names(names).Plus(Parameters(node.params)).Plus(AnalyseBody(node.body));
    forall g
      ensures Has(x, g) <==> InsideHas(node, g) || (g.Name? && DeclaresWithin(node, g.name))
    {
      FunctionContents(node, names, g);
    }
    assert Contents(node, x);
    ClosedHas(node, x, f);
    assert Analyse(node) == x.InFunction();
    assert !Here(node, f) && !BesideHas(node, f);
    hide Has, Analyse, Here, BesideHas, ThroughScope;
  }

  lemma BlockSplits(node: Node, f: Fact)
    requires node.Block?
    ensures Splits(node, f)
  {
    var x := AnalyseAll(node.items);
    forall g
      ensures Has(x, g) <==> InsideHas(node, g) || (g.Name? && DeclaresWithin(node, g.name))
    {
      AllHave(node.items, g);
    }
    assert Contents(node, x);
    ClosedHas(node, x, f);
    assert Analyse(node) == x.InBlock();
    assert !Here(node, f) && !BesideHas(node, f);
    hide Has, Analyse, Here, BesideHas, ThroughScope;
  }

  lemma CatchSplits(node: Node, f: Fact)
    requires node.Catch?
    ensures Splits(node, f)
  {
    var x := Names(PatternNames(node.param)).Plus(Analyse(node.body));
    forall g
      ensures Has(x, g) <==> InsideHas(node, g) || (g.Name? && DeclaresWithin(node, g.name))
    {
      HasPlus(Names(PatternNames(node.param)), Analyse(node.body), g);
      if g.Name? {
        NamesAreBound(node.param, g.name);
      }
      hide Analyse, PatternNames, Binds;
      assert Inside(node, node.body);
    }
    assert Contents(node, x);
    ClosedHas(node, x, f);
    assert Analyse(node) == x.InBlock();
    assert !Here(node, f) && !BesideHas(node, f);
    hide Has, Analyse, Here, BesideHas, ThroughScope;
  }

  lemma ClassSplits(node: Node, f: Fact)
    requires node.Class?
    ensures Splits(node, f)
  {
    var outer := Names(if node.isDeclaration then Named(node.name) else {});
    var x := Names(Named(node.name)).Plus(AnalyseAll(node.members));
    forall g
      ensures Has(x, g) <==> InsideHas(node, g) || (g.Name? && DeclaresWithin(node, g.name))
    {
      AllHave(node.members, g);
      HasPlus(Names(Named(node.name)), AnalyseAll(node.members), g);
    }
    assert Contents(node, x);
    ClosedHas(node, x, f);
    OptionalHas(node.superClass, f);
    HasPlus(outer, AnalyseOptional(node.superClass), f);
    HasPlus(outer.Plus(AnalyseOptional(node.superClass)), x.InBlock(), f);
    assert Analyse(node) == outer.Plus(AnalyseOptional(node.superClass)).Plus(x.InBlock());
    assert Has(outer, f) <==> Here(node, f);
    assert OptionHas(node.superClass, f) <==> BesideHas(node, f);
    hide Has, Analyse, Here, BesideHas, ThroughScope;
  }

  lemma NodeSplits(node: Node, f: Fact)
    ensures Splits(node, f)
  {
    hide Splits;
    match node
    case FunctionDeclaration(_, _, _) => DeclarationSplits(node, f);
    case FunctionExpression(_, _, _, _) => ExpressionSplits(node, f);
    case Block(_) => BlockSplits(node, f);
    case Class(_, _, _, _) => ClassSplits(node, f);
    case Catch(_, _) => CatchSplits(node, f);
    case _ => GroupSplits(node, f);
  }

  // ------------------------------------------------------------ ways show the same facts

  /** The way shows this fact of the node at which it begins. */
  ghost predicate Shows(w: Way, f: Fact) {
    Valid(w) && match f
      case Own(r) => Level(w) && End(w) == Identifier(r)
      case Inner(r) => !Level(w) && End(w) == Identifier(r) && !Bound(w, r.name)
      case Name(name) => Level(w) && Declares(End(w), name)
      case Var(name) => WithinFunction(w) && DeclaresVar(End(w), name)
  }

  ghost predicate Shown(node: Node, f: Fact) {
    exists w: Way :: w.node == node && Shows(w, f)
  }

  ghost predicate InsideShown(node: Node, f: Fact) {
    exists c :: Inside(node, c) && Shown(c, f)
  }

  ghost predicate ShownThroughScope(node: Node, f: Fact) {
    match f
    case Own(_) => false
    case Inner(r) => (InsideShown(node, Own(r)) || InsideShown(node, Inner(r))) && !ScopeBinds(node, r.name)
    case Name(_) => false
    case Var(_) => !IsFunction(node) && InsideShown(node, f)
  }

  lemma BindsWhatIsShown(node: Node, name: string)
    ensures ScopeBinds(node, name) <==>
      DeclaresWithin(node, name) || InsideShown(node, Name(name)) || (IsFunction(node) && InsideShown(node, Var(name)))
  {
    hide DeclaresWithin, Inside, Valid, Level, WithinFunction, Declares, DeclaresVar, End;
    if w: Way :| Inside(node, w.node) && LeadsToDeclaration(w, name, IsFunction(node)) {
      assert Shows(w, Name(name)) || (IsFunction(node) && Shows(w, Var(name)));
      assert Shown(w.node, Name(name)) || (IsFunction(node) && Shown(w.node, Var(name)));
    }
    if c :| Inside(node, c) && Shown(c, Name(name)) {
      var w: Way :| w.node == c && Shows(w, Name(name));
      assert LeadsToDeclaration(w, name, IsFunction(node));
    }
    if IsFunction(node) {
      if c :| Inside(node, c) && Shown(c, Var(name)) {
        var w: Way :| w.node == c && Shows(w, Var(name));
        assert LeadsToDeclaration(w, name, true);
      }
    }
  }

  /** A way that shows a fact stops at once, goes along, or enters a scope. */
  lemma WaySplits(w: Way, f: Fact)
    requires Shows(w, f)
    ensures Here(w.node, f) || (exists c :: Beside(w.node, c) && Shown(c, f)) || ShownThroughScope(w.node, f)
  {
    hide Beside, Inside, ScopeBinds, Declares, DeclaresVar;
    match w
    case Stop(_) =>
    case Along(node, rest) =>
      assert Shows(rest, f);
      assert Shown(rest.node, f);
    case Into(node, rest) =>
      if f.Inner? {
        assert Shows(rest, Own(f.r)) || Shows(rest, Inner(f.r));
        assert Shown(rest.node, Own(f.r)) || Shown(rest.node, Inner(f.r));
      } else {
        assert f.Var? && Shows(rest, f);
        assert Shown(rest.node, f);
      }
  }

  lemma ShownAlong(node: Node, c: Node, f: Fact)
    requires Beside(node, c) && Shown(c, f)
    ensures Shown(node, f)
  {
    hide Beside, Inside, ScopeBinds, Declares, DeclaresVar;
    var w: Way :| w.node == c && Shows(w, f);
    assert Shows(Along(node, w), f);
  }

  lemma ShownInto(node: Node, f: Fact)
    requires ShownThroughScope(node, f)
    ensures Shown(node, f)
  {
    hide Beside, Inside, ScopeBinds, Declares, DeclaresVar;
    var g := if f.Inner? && InsideShown(node, Own(f.r)) then Own(f.r) else f;
    var c :| Inside(node, c) && Shown(c, g);
    var w: Way :| w.node == c && Shows(w, g);
    if f.Inner? && g.Own? {
      NothingBoundOnLevel(w, f.r.name);
    }
    assert Shows(Into(node, w), f);
  }

  lemma {:induction false} NothingBoundOnLevel(w: Way, name: string)
    requires Level(w)
    ensures !Bound(w, name)
  {
    if w.Along? {
      NothingBoundOnLevel(w.rest, name);
    }
  }

  lemma ShownSplits(node: Node, f: Fact)
    ensures Shown(node, f) <==>
      Here(node, f) || (exists c :: Beside(node, c) && Shown(c, f)) || ShownThroughScope(node, f)
  {
    if Here(node, f) {
      assert Shows(Stop(node), f);
    }
    hide *;
    ShownMeans(node, f);
    if c :| Beside(node, c) && Shown(c, f) {
      ShownAlong(node, c, f);
    }
    if ShownThroughScope(node, f) {
      ShownInto(node, f);
    }
  }

  lemma ShownMeans(node: Node, f: Fact)
    ensures Shows(Stop(node), f) ==> Shown(node, f)
    ensures Shown(node, f) ==>
      Here(node, f) || (exists c :: Beside(node, c) && Shown(c, f)) || ShownThroughScope(node, f)
  {
    assert Stop(node).node == node;
    hide Shows, Here, Beside, ShownThroughScope;
    if Shown(node, f) {
      var w: Way :| w.node == node && Shows(w, f);
      WaySplits(w, f);
    }
  }

  // ------------------------------------------------------------ both say the same

  ghost predicate PartOf(p: Pattern, child: Node) {
    p decreases to child
  }

  lemma {:induction false} EvaluatedIsPart(p: Pattern, child: Node)
    requires Evaluates(p, child)
    ensures PartOf(p, child)
    decreases p
  {
    match p
    case Rest(argument) =>
      EvaluatedIsPart(argument, child);
    case Default(_, _) =>
    case Elements(items) =>
      var i :| 0 <= i < |items| && Evaluates(items[i], child);
      EvaluatedIsPart(items[i], child);
    case Properties(properties) =>
      var i :| 0 <= i < |properties|
        && (properties[i].computedKey == Some(child) || Evaluates(properties[i].value, child));
      if properties[i].computedKey != Some(child) {
        EvaluatedIsPart(properties[i].value, child);
      }
  }

  lemma VisitedIsPart(node: Node, child: Node)
    requires Beside(node, child) || Inside(node, child)
    ensures child < node
  {
    if IsFunction(node) && InParameters(node.params, child) {
      var i :| 0 <= i < |node.params| && Evaluates(node.params[i], child);
      EvaluatedIsPart(node.params[i], child);
    }
    hide Evaluates;
  }

  lemma {:induction false} FactsAreShown(node: Node, f: Fact)
    ensures NodeHas(node, f) <==> Shown(node, f)
    decreases node
  {
    hide *;
    NodeSplits(node, f);
    ShownSplits(node, f);
    forall c, g | Beside(node, c) || Inside(node, c)
      ensures NodeHas(c, g) <==> Shown(c, g)
    {
      VisitedIsPart(node, c);
      FactsAreShown(c, g);
    }
    SameThroughScope(node, f);
  }

  lemma SameThroughScope(node: Node, f: Fact)
    requires forall c, g :: Beside(node, c) || Inside(node, c) ==> (NodeHas(c, g) <==> Shown(c, g))
    requires Splits(node, f)
    ensures ThroughScope(node, f) <==> ShownThroughScope(node, f)
    ensures NodeHas(node, f) <==>
      Here(node, f) || (exists c :: Beside(node, c) && Shown(c, f)) || ShownThroughScope(node, f)
  {
    hide NodeHas, Shown, Beside, Inside, DeclaresWithin, ScopeBinds, Here;
    if f.Inner? {
      BindsWhatIsShown(node, f.r.name);
    }
    assert forall g :: InsideHas(node, g) <==> InsideShown(node, g);
  }

  lemma ProgramHas(program: seq<Node>, f: Fact)
    ensures Has(AnalyseAll(program), f) <==> exists w: Way :: w.node in program && Shows(w, f)
  {
    AllHave(program, f);
    hide *;
    forall c
      ensures NodeHas(c, f) <==> Shown(c, f)
    {
      FactsAreShown(c, f);
    }
    ShownSomewhere(program, f);
  }

  lemma ShownSomewhere(program: seq<Node>, f: Fact)
    ensures (exists c :: c in program && Shown(c, f)) <==> exists w: Way :: w.node in program && Shows(w, f)
  {
    hide Shows;
    if w: Way :| w.node in program && Shows(w, f) {
      assert Shown(w.node, f);
    }
  }

  /** Free identifiers by occurrence: a reference is free exactly when some way leads to it on which no scope, and not
      the program either, binds its name. */
  lemma FreeByOccurrence(program: seq<Node>, r: Ref)
    ensures r in FreeIdentifiers(program) <==>
      !ProgramBinds(program, r.name) && exists w: Way :: LeadsToFree(program, w, r)
  {
    var x := AnalyseAll(program);
    WithoutMembers(x.own + x.inner, x.names + x.vars, r);
    ProgramHas(program, Own(r));
    ProgramHas(program, Inner(r));
    ProgramHas(program, Name(r.name));
    ProgramHas(program, Var(r.name));
    assert Has(x, Own(r)) <==> r in x.own;
    assert Has(x, Inner(r)) <==> r in x.inner;
    assert Has(x, Name(r.name)) <==> r.name in x.names;
    assert Has(x, Var(r.name)) <==> r.name in x.vars;
    assert r in FreeIdentifiers(program) <==> (r in x.own || r in x.inner) && r.name !in x.names && r.name !in x.vars;
    hide FreeIdentifiers, AnalyseAll, Has;
    ProgramBindsWhatIsShown(program, r.name);
    FreeWays(program, r);
  }

  lemma ProgramBindsWhatIsShown(program: seq<Node>, name: string)
    ensures ProgramBinds(program, name) <==>
      (exists w: Way :: w.node in program && Shows(w, Name(name)))
        || exists w: Way :: w.node in program && Shows(w, Var(name))
  {
    hide Valid, Level, WithinFunction, Declares, DeclaresVar, End;
    assert forall w: Way :: LeadsToDeclaration(w, name, true) <==> Shows(w, Name(name)) || Shows(w, Var(name));
  }

  lemma FreeWays(program: seq<Node>, r: Ref)
    ensures (exists w: Way :: LeadsToFree(program, w, r)) <==>
      (exists w: Way :: w.node in program && Shows(w, Own(r)))
        || exists w: Way :: w.node in program && Shows(w, Inner(r))
  {
    hide Valid, End;
    forall w: Way
      ensures LeadsToFree(program, w, r) <==> w.node in program && (Shows(w, Own(r)) || Shows(w, Inner(r)))
    {
      if Level(w) {
        NothingBoundOnLevel(w, r.name);
      }
    }
  }
}
