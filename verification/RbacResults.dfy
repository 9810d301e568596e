/** The generated RBAC objects grant what was declared: exactly when, and whatever the order in
    which the namespaces are walked. */
module RbacResults {
  import opened Wrappers
  import opened Rbac

  /** The strings that names are generated from. */
  function Stems(f: Factory): set<string> {
    {f.id, Stem(f, f.namespace)} + set n | n in Declared(f.permissions) :: Stem(f, Suffix(f, n))
  }

  /** Generated names differ where their stems do, and from the identifier itself. */
  ghost predicate NamesFit(f: Factory, gen: string -> string) {
    && (forall a, b :: a in Stems(f) && b in Stems(f) && gen(a) == gen(b) ==> a == b)
    && (forall a :: a in Stems(f) ==> gen(a) != f.id)
  }

  /** Every entry of `order` is declared, and no namespace is called like the label for "*". */
  ghost predicate Walks(f: Factory, order: seq<Scope>) {
    && (forall n :: n in order ==> n in Declared(f.permissions))
    && In(f.allLabel) !in Declared(f.permissions)
  }

  /** The rules that the cluster role named after `scope` ends up with. */
  function Content(f: Factory, order: seq<Scope>, scope: Scope): seq<PolicyRule>
    requires Own !in order && !scope.Own?
  {
    if order == [] then []
    else if Suffix(f, order[|order| - 1]) == Suffix(f, scope) then RulesFor(f.permissions, order[|order| - 1])
    else Content(f, order[..|order| - 1], scope)
  }

  lemma StemIsInjective(f: Factory, a: string, b: string)
    requires Stem(f, a) == Stem(f, b)
    ensures a == b
  {
    assert a == Stem(f, a)[|f.id| + 1..];
    assert b == Stem(f, b)[|f.id| + 1..];
  }

  // ------------------------------------------------------ the object tables

  lemma OneMoreClusterRole(s: seq<ClusterRole>, x: ClusterRole)
    ensures ApplyClusterRoles(s + [x]) == ApplyClusterRoles(s)[x.name := x.rules]
  {
    assert (s + [x])[..|s + [x]| - 1] == s;
  }

  lemma OneMoreScoped(f: Factory, gen: string -> string, s: seq<ClusterRole>, x: ClusterRole)
    requires x.labelled.Some?
    ensures var table := ApplyBindings(BindScoped(f, gen, s));
      ApplyBindings(BindScoped(f, gen, s + [x])) ==
      if x.labelled.value == f.allLabel then table
      else table[(x.labelled.value, gen(Stem(f, f.namespace))) := ToClusterRole(x.name)]
  {
    assert (s + [x])[..|s + [x]| - 1] == s;
    var bound := BindScoped(f, gen, s + [x]);
    if x.labelled.value != f.allLabel {
      assert bound[..|bound| - 1] == BindScoped(f, gen, s);
    }
  }

  lemma OneMoreEverywhere(f: Factory, gen: string -> string, s: seq<ClusterRole>, x: ClusterRole)
    requires x.labelled.Some?
    ensures var table := ApplyClusterBindings(BindEverywhere(f, gen, s));
      ApplyClusterBindings(BindEverywhere(f, gen, s + [x])) ==
      if x.labelled.value == f.allLabel then table[gen(Stem(f, f.namespace)) := x.name] else table
  {
    assert (s + [x])[..|s + [x]| - 1] == s;
    var bound := BindEverywhere(f, gen, s + [x]);
    if x.labelled.value == f.allLabel {
      assert bound[..|bound| - 1] == BindEverywhere(f, gen, s);
    }
  }

  /** With nothing declared there is at most the default cluster role and its binding. */
  lemma NothingDeclared(f: Factory, gen: string -> string)
    ensures var crs := ClusterRoles(f, gen, []);
      && ApplyClusterRoles(crs) == (if f.resourceWorkflow then map[] else map[f.id := PromiseDefaults()])
      && BindScoped(f, gen, crs) == []
      && ApplyClusterBindings(BindEverywhere(f, gen, crs)) == (if f.resourceWorkflow then map[] else map[f.id := f.id])
  {
    if !f.resourceWorkflow {
      var role := ClusterRole(f.id, None, PromiseDefaults());
      assert [role][..0] == [];
      assert BindEverywhere(f, gen, [role][..0]) == [] && BindScoped(f, gen, [role][..0]) == [];
      var bound := [ClusterRoleBinding(f.id, f.id)];
      assert BindEverywhere(f, gen, [role]) == bound;
      assert bound[..0] == [];
    }
  }

  lemma ClusterRoleNext(f: Factory, gen: string -> string, front: seq<Scope>, last: Scope)
    requires Own !in front + [last] && !last.Own?
    ensures ApplyClusterRoles(ClusterRoles(f, gen, front + [last])) ==
      ApplyClusterRoles(ClusterRoles(f, gen, front))[gen(Stem(f, Suffix(f, last))) := RulesFor(f.permissions, last)]
  {
    assert (front + [last])[..|front + [last]| - 1] == front;
    OneMoreClusterRole(ClusterRoles(f, gen, front), UserClusterRole(f, gen, last));
  }

  lemma {:induction false} ClusterRoleTable(f: Factory, gen: string -> string, order: seq<Scope>, scope: Scope)
    requires NamesFit(f, gen) && Walks(f, order) && scope in Declared(f.permissions)
    ensures RulesOf(ApplyClusterRoles(ClusterRoles(f, gen, order)), gen(Stem(f, Suffix(f, scope)))) == Content(f, order, scope)
  {
    if order == [] {
      NothingDeclared(f, gen);
    } else {
      var front, last := order[..|order| - 1], order[|order| - 1];
      assert last in order && order == front + [last];
      ClusterRoleTable(f, gen, front, scope);
      RulesNext(f, gen, front, last, scope);
    }
  }

  lemma RulesNext(f: Factory, gen: string -> string, front: seq<Scope>, last: Scope, scope: Scope)
    requires NamesFit(f, gen) && Own !in front + [last]
    requires last in Declared(f.permissions) && scope in Declared(f.permissions)
    ensures var name := gen(Stem(f, Suffix(f, scope)));
      RulesOf(ApplyClusterRoles(ClusterRoles(f, gen, front + [last])), name) ==
      if Suffix(f, last) == Suffix(f, scope) then RulesFor(f.permissions, last)
      else RulesOf(ApplyClusterRoles(ClusterRoles(f, gen, front)), name)
  {
    ClusterRoleNext(f, gen, front, last);
    SameNameIff(f, gen, last, scope);
  }

  lemma SameNameIff(f: Factory, gen: string -> string, a: Scope, b: Scope)
    requires NamesFit(f, gen) && a in Declared(f.permissions) && b in Declared(f.permissions)
    ensures gen(Stem(f, Suffix(f, a))) == gen(Stem(f, Suffix(f, b))) <==> Suffix(f, a) == Suffix(f, b)
  {
    assert Stem(f, Suffix(f, a)) in Stems(f) && Stem(f, Suffix(f, b)) in Stems(f);
    if gen(Stem(f, Suffix(f, a))) == gen(Stem(f, Suffix(f, b))) {
      StemIsInjective(f, Suffix(f, a), Suffix(f, b));
    }
  }

  /** The default cluster role keeps its rules whatever is declared. */
  lemma {:induction false} DefaultTable(f: Factory, gen: string -> string, order: seq<Scope>)
    requires NamesFit(f, gen) && Walks(f, order)
    ensures RulesOf(ApplyClusterRoles(ClusterRoles(f, gen, order)), f.id) == if f.resourceWorkflow then [] else PromiseDefaults()
  {
    if order == [] {
      NothingDeclared(f, gen);
    } else {
      var front, last := order[..|order| - 1], order[|order| - 1];
      assert last in order && Stem(f, Suffix(f, last)) in Stems(f);
      DefaultTable(f, gen, front);
      OneMoreClusterRole(ClusterRoles(f, gen, front), UserClusterRole(f, gen, last));
    }
  }

  lemma {:induction false} ScopedTable(f: Factory, gen: string -> string, order: seq<Scope>, ns: string, name: string)
    requires Walks(f, order)
    ensures var table := ApplyBindings(BindScoped(f, gen, ClusterRoles(f, gen, order)));
      && ((ns, name) in table <==> In(ns) in order && name == gen(Stem(f, f.namespace)))
      && ((ns, name) in table ==> table[(ns, name)] == ToClusterRole(gen(Stem(f, ns))))
  {
    if order == [] {
      NothingDeclared(f, gen);
    } else {
      var front, last := order[..|order| - 1], order[|order| - 1];
      assert order == front + [last] && last in order;
      assert forall x :: x in order <==> x in front || x == last;
      ScopedTable(f, gen, front, ns, name);
      ScopedNext(f, gen, front, last);
    }
  }

  lemma ScopedNext(f: Factory, gen: string -> string, front: seq<Scope>, last: Scope)
    requires Own !in front + [last] && last != In(f.allLabel)
    ensures var table := ApplyBindings(BindScoped(f, gen, ClusterRoles(f, gen, front)));
      ApplyBindings(BindScoped(f, gen, ClusterRoles(f, gen, front + [last]))) ==
      if last.All? then table
      else table[(last.namespace, gen(Stem(f, f.namespace))) := ToClusterRole(gen(Stem(f, last.namespace)))]
  {
    assert (front + [last])[..|front + [last]| - 1] == front && last in front + [last];
    OneMoreScoped(f, gen, ClusterRoles(f, gen, front), UserClusterRole(f, gen, last));
  }

  /** What the table of cluster role bindings has under `name`; `all`: "*" is declared. */
  predicate EverywhereAt(table: map<string, string>, f: Factory, gen: string -> string, all: bool, name: string) {
    && (name in table <==> (!f.resourceWorkflow && name == f.id) || (all && name == gen(Stem(f, f.namespace))))
    && (name in table ==> table[name] == if name == f.id then f.id else gen(Stem(f, f.allSuffix)))
  }

  lemma EverywhereOneMore(table: map<string, string>, f: Factory, gen: string -> string, all: bool, name: string)
    requires EverywhereAt(table, f, gen, all, name) && gen(Stem(f, f.namespace)) != f.id
    ensures EverywhereAt(table[gen(Stem(f, f.namespace)) := gen(Stem(f, f.allSuffix))], f, gen, true, name)
  {
  }

  lemma {:induction false} EverywhereTable(f: Factory, gen: string -> string, order: seq<Scope>, name: string)
    requires NamesFit(f, gen) && Walks(f, order)
    ensures EverywhereAt(ApplyClusterBindings(BindEverywhere(f, gen, ClusterRoles(f, gen, order))), f, gen, All in order, name)
  {
    if order == [] {
      NothingDeclared(f, gen);
    } else {
      var front, last := order[..|order| - 1], order[|order| - 1];
      assert order == front + [last] && last in order;
      EverywhereTable(f, gen, front, name);
      EverywhereNext(f, gen, front, last);
      BindingNames(f, gen);
      EverywhereOneMore(ApplyClusterBindings(BindEverywhere(f, gen, ClusterRoles(f, gen, front))), f, gen, All in front, name);
    }
  }

  lemma EverywhereNext(f: Factory, gen: string -> string, front: seq<Scope>, last: Scope)
    requires Own !in front + [last] && last != In(f.allLabel)
    ensures var table := ApplyClusterBindings(BindEverywhere(f, gen, ClusterRoles(f, gen, front)));
      ApplyClusterBindings(BindEverywhere(f, gen, ClusterRoles(f, gen, front + [last]))) ==
      if last.All? then table[gen(Stem(f, f.namespace)) := gen(Stem(f, f.allSuffix))] else table
  {
    assert (front + [last])[..|front + [last]| - 1] == front && last in front + [last];
    OneMoreEverywhere(f, gen, ClusterRoles(f, gen, front), UserClusterRole(f, gen, last));
  }

  lemma {:induction false} ApplyBindingsSplit(a: seq<RoleBinding>, b: seq<RoleBinding>)
    ensures ApplyBindings(a + b) == ApplyBindings(a) + ApplyBindings(b)
  {
    if b == [] {
      assert a + b == a;
    } else {
      assert (a + b)[..|a + b| - 1] == a + b[..|b| - 1];
      ApplyBindingsSplit(a, b[..|b| - 1]);
    }
  }

  /** Each Role is bound under its own name, in the pipeline's namespace. */
  lemma {:induction false} RoleBindingTable(f: Factory, roles: seq<Role>, ns: string, name: string)
    ensures var table := ApplyBindings(BindRoles(f, roles));
      && ((ns, name) in table <==> ns == f.namespace && name in ApplyRoles(roles))
      && ((ns, name) in table ==> table[(ns, name)] == ToRole(name))
  {
    if roles != [] {
      var bound := BindRoles(f, roles);
      assert bound[..|bound| - 1] == BindRoles(f, roles[..|roles| - 1]);
      RoleBindingTable(f, roles[..|roles| - 1], ns, name);
    }
  }

  lemma OneMoreRole(s: seq<Role>, x: Role)
    ensures ApplyRoles(s + [x]) == ApplyRoles(s)[x.name := x.rules]
  {
    assert (s + [x])[..|s + [x]| - 1] == s;
  }

  /** At most one Role under each of two different names. */
  lemma TwoRoles(default: seq<Role>, own: seq<Role>, name: string)
    requires |default| <= 1 && |own| <= 1 && (default != [] && own != [] ==> default[0].name != own[0].name)
    ensures var table := ApplyRoles(default + own);
      && (default != [] && name == default[0].name ==> name in table && table[name] == default[0].rules)
      && (own != [] && name == own[0].name ==> name in table && table[name] == own[0].rules)
      && (name in table ==> (default != [] && name == default[0].name) || (own != [] && name == own[0].name))
  {
    if default != [] {
      OneMoreRole([], default[0]);
      assert [] + [default[0]] == default;
    }
    if own != [] {
      OneMoreRole(default, own[0]);
      assert own == [own[0]];
    } else {
      assert default + own == default;
    }
  }

  /** A default Role for resource workflows, and one for the rules declared without a namespace. */
  lemma RoleTable(f: Factory, gen: string -> string, name: string)
    requires gen(f.id) != f.id
    ensures RulesOf(ApplyRoles(Roles(f, gen)), name) ==
      if name == f.id && f.resourceWorkflow then ResourceDefaults(f)
      else if name == gen(f.id) then RulesFor(f.permissions, Own)
      else []
    ensures name in ApplyRoles(Roles(f, gen)) ==> name == f.id || name == gen(f.id)
    ensures RulesOf(ApplyRoles(Roles(f, gen)), name) != [] ==> name in ApplyRoles(Roles(f, gen))
  {
    var default: seq<Role> := if f.resourceWorkflow then [Role(f.id, ResourceDefaults(f))] else [];
    var rules := RulesFor(f.permissions, Own);
    TwoRoles(default, if rules == [] then [] else [Role(gen(f.id), rules)], name);
  }

  // ---------------------------------------------------------- what is granted

  /** Granted by a binding in `ns`. */
  ghost predicate GrantedIn(f: Factory, a: Applied, r: PolicyRule, ns: string) {
    exists name :: (ns, name) in a.bindings && r in Resolve(f, a, ns, a.bindings[(ns, name)])
  }

  lemma BindingNames(f: Factory, gen: string -> string)
    requires NamesFit(f, gen)
    ensures gen(Stem(f, f.namespace)) != f.id && gen(Stem(f, f.namespace)) != gen(f.id) && gen(f.id) != f.id
  {
    assert {f.id, Stem(f, f.namespace)} <= Stems(f);
    assert |Stem(f, f.namespace)| > |f.id|;
  }

  /** What one namespaced binding gives. */
  function RulesAt(f: Factory, a: Applied, ns: string, name: string): seq<PolicyRule> {
    if (ns, name) in a.bindings then Resolve(f, a, ns, a.bindings[(ns, name)]) else []
  }

  /** The namespaced bindings: one per Role, and one per namespace in the walk. */
  lemma BoundAt(f: Factory, gen: string -> string, order: seq<Scope>, ns: string, name: string)
    requires NamesFit(f, gen) && Walks(f, order)
    ensures var a := Compile(f, gen, order);
      && ((ns, name) in a.bindings <==>
            || (ns == f.namespace && name in a.roles)
            || (In(ns) in order && name == gen(Stem(f, f.namespace))))
      && ((ns, name) in a.bindings && name == gen(Stem(f, f.namespace)) ==> a.bindings[(ns, name)] == ToClusterRole(gen(Stem(f, ns))))
      && ((ns, name) in a.bindings && name != gen(Stem(f, f.namespace)) ==> a.bindings[(ns, name)] == ToRole(name))
  {
    var roles, crs := Roles(f, gen), ClusterRoles(f, gen, order);
    ApplyBindingsSplit(BindRoles(f, roles), BindScoped(f, gen, crs));
    ScopedTable(f, gen, order, ns, name);
    RoleBindingTable(f, roles, ns, name);
    NoRoleIsCalledSo(f, gen);
  }

  lemma NoRoleIsCalledSo(f: Factory, gen: string -> string)
    requires NamesFit(f, gen)
    ensures gen(Stem(f, f.namespace)) !in ApplyRoles(Roles(f, gen))
  {
    BindingNames(f, gen);
    RoleTable(f, gen, gen(Stem(f, f.namespace)));
  }

  lemma BindingAt(f: Factory, gen: string -> string, order: seq<Scope>, ns: string, name: string)
    requires NamesFit(f, gen) && Walks(f, order)
    ensures RulesAt(f, Compile(f, gen, order), ns, name) ==
      if name == gen(Stem(f, f.namespace)) then (if In(ns) in order then Content(f, order, In(ns)) else [])
      else if ns == f.namespace then RulesOf(ApplyRoles(Roles(f, gen)), name)
      else []
  {
    BoundAt(f, gen, order, ns, name);
    NoRoleIsCalledSo(f, gen);
    if In(ns) in order {
      ClusterRoleTable(f, gen, order, In(ns));
    }
  }

  lemma GrantedByName(f: Factory, a: Applied, r: PolicyRule, ns: string)
    ensures GrantedIn(f, a, r, ns) <==> exists name :: r in RulesAt(f, a, ns, name)
  {
    if name :| r in RulesAt(f, a, ns, name) {
      assert (ns, name) in a.bindings && r in Resolve(f, a, ns, a.bindings[(ns, name)]);
    }
    if name :| (ns, name) in a.bindings && r in Resolve(f, a, ns, a.bindings[(ns, name)]) {
      assert r in RulesAt(f, a, ns, name);
    }
  }

  /** What the bindings in `ns` give, by name. */
  lemma RulesAtIs(f: Factory, gen: string -> string, order: seq<Scope>, r: PolicyRule, ns: string, name: string)
    requires NamesFit(f, gen) && Walks(f, order)
    ensures r in RulesAt(f, Compile(f, gen, order), ns, name) <==>
      || (ns == f.namespace && f.resourceWorkflow && name == f.id && r in ResourceDefaults(f))
      || (ns == f.namespace && name == gen(f.id) && r in RulesFor(f.permissions, Own))
      || (In(ns) in order && name == gen(Stem(f, f.namespace)) && r in Content(f, order, In(ns)))
  {
    BindingNames(f, gen);
    BindingAt(f, gen, order, ns, name);
    RoleTable(f, gen, name);
  }

  lemma GrantedInIs(f: Factory, gen: string -> string, order: seq<Scope>, r: PolicyRule, ns: string)
    requires NamesFit(f, gen) && Walks(f, order)
    ensures GrantedIn(f, Compile(f, gen, order), r, ns) <==>
      || (ns == f.namespace && f.resourceWorkflow && r in ResourceDefaults(f))
      || (ns == f.namespace && r in RulesFor(f.permissions, Own))
      || (In(ns) in order && r in Content(f, order, In(ns)))
  {
    var a := Compile(f, gen, order);
    GrantedByName(f, a, r, ns);
    if name :| r in RulesAt(f, a, ns, name) {
      RulesAtIs(f, gen, order, r, ns, name);
    }
    RulesAtIs(f, gen, order, r, ns, f.id);
    RulesAtIs(f, gen, order, r, ns, gen(f.id));
    RulesAtIs(f, gen, order, r, ns, gen(Stem(f, f.namespace)));
  }

  lemma GrantedEverywhereIs(f: Factory, gen: string -> string, order: seq<Scope>, r: PolicyRule)
    requires NamesFit(f, gen) && Walks(f, order)
    ensures var a := Compile(f, gen, order);
      (exists name :: name in a.clusterBindings && r in RulesOf(a.clusterRoles, a.clusterBindings[name])) <==>
      || (!f.resourceWorkflow && r in PromiseDefaults())
      || (All in order && r in Content(f, order, All))
  {
    EverywhereByName(Compile(f, gen, order), r);
    EverywhereNames(f, gen, order, r, Compile(f, gen, order));
  }

  /** What one cluster role binding gives. */
  function RulesEverywhere(a: Applied, name: string): seq<PolicyRule> {
    if name in a.clusterBindings then RulesOf(a.clusterRoles, a.clusterBindings[name]) else []
  }

  lemma EverywhereByName(a: Applied, r: PolicyRule)
    ensures (exists name :: name in a.clusterBindings && r in RulesOf(a.clusterRoles, a.clusterBindings[name])) <==>
      exists name :: r in RulesEverywhere(a, name)
  {
    if name :| r in RulesEverywhere(a, name) {
      assert name in a.clusterBindings && r in RulesOf(a.clusterRoles, a.clusterBindings[name]);
    }
    if name :| name in a.clusterBindings && r in RulesOf(a.clusterRoles, a.clusterBindings[name]) {
      assert r in RulesEverywhere(a, name);
    }
  }

  lemma EverywhereNames(f: Factory, gen: string -> string, order: seq<Scope>, r: PolicyRule, a: Applied)
    requires NamesFit(f, gen) && Walks(f, order) && a == Compile(f, gen, order)
    ensures (exists name :: r in RulesEverywhere(a, name)) <==>
      (!f.resourceWorkflow && r in PromiseDefaults()) || (All in order && r in Content(f, order, All))
  {
    if name :| r in RulesEverywhere(a, name) {
      RulesEverywhereIs(f, gen, order, r, a, name);
    }
    RulesEverywhereIs(f, gen, order, r, a, f.id);
    RulesEverywhereIs(f, gen, order, r, a, gen(Stem(f, f.namespace)));
  }

  lemma RulesEverywhereIs(f: Factory, gen: string -> string, order: seq<Scope>, r: PolicyRule, a: Applied, name: string)
    requires NamesFit(f, gen) && Walks(f, order) && a == Compile(f, gen, order)
    ensures r in RulesEverywhere(a, name) <==>
      || (!f.resourceWorkflow && name == f.id && r in PromiseDefaults())
      || (All in order && name == gen(Stem(f, f.namespace)) && r in Content(f, order, All))
  {
    BindingNames(f, gen);
    BoundEverywhere(f, gen, order, name);
  }

  lemma BoundEverywhere(f: Factory, gen: string -> string, order: seq<Scope>, name: string)
    requires NamesFit(f, gen) && Walks(f, order)
    ensures var a := Compile(f, gen, order);
      && (name in a.clusterBindings <==> (!f.resourceWorkflow && name == f.id) || (All in order && name == gen(Stem(f, f.namespace))))
      && (name in a.clusterBindings ==>
            RulesOf(a.clusterRoles, a.clusterBindings[name]) == if name == f.id then PromiseDefaults() else Content(f, order, All))
  {
    BindingNames(f, gen);
    EverywhereTable(f, gen, order, name);
    DefaultTable(f, gen, order);
    if All in order {
      ClusterRoleTable(f, gen, order, All);
    }
  }

  /** What the objects grant, in terms of the rules each cluster role ends up with. */
  lemma GrantedIs(f: Factory, gen: string -> string, order: seq<Scope>, r: PolicyRule, ns: string)
    requires NamesFit(f, gen) && Walks(f, order)
    ensures Granted(f, Compile(f, gen, order), r, ns) <==>
      || IsDefault(f, r, ns)
      || (ns == f.namespace && r in RulesFor(f.permissions, Own))
      || (In(ns) in order && r in Content(f, order, In(ns)))
      || (All in order && r in Content(f, order, All))
  {
    var a := Compile(f, gen, order);
    GrantedInIs(f, gen, order, r, ns);
    GrantedEverywhereIs(f, gen, order, r);
    assert Granted(f, a, r, ns) <==>
      GrantedIn(f, a, r, ns) || exists name :: name in a.clusterBindings && r in RulesOf(a.clusterRoles, a.clusterBindings[name]);
  }

  // ------------------------------------------------------------- the meaning

  lemma {:induction false} RulesForMember(permissions: seq<Permission>, scope: Scope, r: PolicyRule)
    ensures r in RulesFor(permissions, scope) <==> Permission(scope, r) in permissions
  {
    if permissions != [] {
      RulesForMember(permissions[..|permissions| - 1], scope, r);
      assert permissions == permissions[..|permissions| - 1] + [permissions[|permissions| - 1]];
    }
  }

  lemma DeclaredIf(f: Factory, scope: Scope, r: PolicyRule)
    requires !scope.Own? && r in RulesFor(f.permissions, scope)
    ensures scope in Declared(f.permissions)
  {
    RulesForMember(f.permissions, scope, r);
    assert Permission(scope, r).scope == scope;
  }

  lemma IntendedIs(f: Factory, r: PolicyRule, ns: string)
    ensures Intended(f, r, ns) <==>
      || IsDefault(f, r, ns)
      || (ns == f.namespace && r in RulesFor(f.permissions, Own))
      || r in RulesFor(f.permissions, In(ns))
      || r in RulesFor(f.permissions, All)
  {
    RulesForMember(f.permissions, Own, r);
    RulesForMember(f.permissions, All, r);
    RulesForMember(f.permissions, In(ns), r);
    assert forall p :: p in f.permissions && p.rule == r ==> p == Permission(p.scope, r);
  }

  ghost predicate FaithfulAt(f: Factory, a: Applied, r: PolicyRule, ns: string) {
    Granted(f, a, r, ns) <==> Intended(f, r, ns)
  }

  /** The objects grant every rule in every namespace exactly as declared. */
  ghost predicate Faithful(f: Factory, gen: string -> string, order: seq<Scope>)
    requires Own !in order
  {
    var a := Compile(f, gen, order);
    forall r, ns :: FaithfulAt(f, a, r, ns)
  }

  /** "*" and the namespace whose name stands for it in cluster role names are both declared. */
  predicate Clash(f: Factory) {
    All in Declared(f.permissions) && In(f.allSuffix) in Declared(f.permissions)
  }

  /** A walking order of all declared scopes. */
  ghost predicate Order(f: Factory, order: seq<Scope>) {
    IsOrder(f, order) && Walks(f, order)
  }

  lemma {:induction false} ContentIsOwn(f: Factory, order: seq<Scope>, scope: Scope)
    requires Walks(f, order) && scope in order
    requires Clash(f) ==> Suffix(f, scope) != f.allSuffix
    ensures Content(f, order, scope) == RulesFor(f.permissions, scope)
  {
    var front, last := order[..|order| - 1], order[|order| - 1];
    assert last in order && order == front + [last];
    if last != scope {
      assert Suffix(f, last) != Suffix(f, scope);
      ContentIsOwn(f, front, scope);
    }
  }

  /** One rule in one namespace, given what the two lookups yield. */
  lemma FaithfulFrom(f: Factory, gen: string -> string, order: seq<Scope>, r: PolicyRule, ns: string)
    requires NamesFit(f, gen) && Order(f, order)
    requires IsDefault(f, r, ns) ||
      ((In(ns) in order && r in Content(f, order, In(ns))) || (All in order && r in Content(f, order, All))
       <==> r in RulesFor(f.permissions, In(ns)) || r in RulesFor(f.permissions, All))
    ensures FaithfulAt(f, Compile(f, gen, order), r, ns)
  {
    GrantedIs(f, gen, order, r, ns);
    IntendedIs(f, r, ns);
  }

  lemma Undeclared(f: Factory, order: seq<Scope>, scope: Scope, r: PolicyRule)
    requires Order(f, order) && !scope.Own? && scope !in order
    ensures r !in RulesFor(f.permissions, scope)
  {
    if r in RulesFor(f.permissions, scope) {
      DeclaredIf(f, scope, r);
    }
  }

  /** Without that clash the objects grant exactly what was declared, in every walking order. */
  lemma DeclaredIsGranted(f: Factory, gen: string -> string, order: seq<Scope>)
    requires NamesFit(f, gen) && Order(f, order) && !Clash(f)
    ensures Faithful(f, gen, order)
  {
    forall r, ns
      ensures FaithfulAt(f, Compile(f, gen, order), r, ns)
    {
      if In(ns) in order { ContentIsOwn(f, order, In(ns)); } else { Undeclared(f, order, In(ns), r); }
      if All in order { ContentIsOwn(f, order, All); } else { Undeclared(f, order, All, r); }
      FaithfulFrom(f, gen, order, r, ns);
    }
  }

  // --------------------------------------------------------------- the clash

  /** Both of the two entries declare the rule, or neither, or every namespace has it by default. */
  predicate AgreeOn(f: Factory, r: PolicyRule) {
    || (!f.resourceWorkflow && r in PromiseDefaults())
    || (r in RulesFor(f.permissions, All) <==> r in RulesFor(f.permissions, In(f.allSuffix)))
  }

  ghost predicate Agree(f: Factory) {
    forall r :: AgreeOn(f, r)
  }

  /** The later of the two decides what both names grant. */
  lemma {:induction false} ClashContent(f: Factory, order: seq<Scope>)
    requires Own !in order && (All in order || In(f.allSuffix) in order)
    ensures Content(f, order, All) == Content(f, order, In(f.allSuffix))
    ensures Content(f, order, All) == RulesFor(f.permissions, All) || Content(f, order, All) == RulesFor(f.permissions, In(f.allSuffix))
  {
    var front, last := order[..|order| - 1], order[|order| - 1];
    assert order == front + [last];
    if Suffix(f, last) != f.allSuffix {
      ClashContent(f, front);
    }
  }

  lemma AgreeingClash(f: Factory, gen: string -> string, order: seq<Scope>)
    requires NamesFit(f, gen) && Order(f, order) && Clash(f) && Agree(f)
    ensures Faithful(f, gen, order)
  {
    forall r, ns
      ensures FaithfulAt(f, Compile(f, gen, order), r, ns)
    {
      ClashContent(f, order);
      assert AgreeOn(f, r);
      if ns != f.allSuffix {
        if In(ns) in order { ContentIsOwn(f, order, In(ns)); } else { Undeclared(f, order, In(ns), r); }
      }
      FaithfulFrom(f, gen, order, r, ns);
    }
  }

  lemma {:induction false} LengthBound(s: set<string>) returns (bound: nat)
    ensures forall x :: x in s ==> |x| < bound
    decreases |s|
  {
    bound := 0;
    if s != {} {
      var x :| x in s;
      var rest := LengthBound(s - {x});
      bound := if |x| < rest then rest else |x| + 1;
    }
  }

  lemma {:induction false} Ordering(s: set<Scope>) returns (order: seq<Scope>)
    ensures forall n :: n in order <==> n in s
    ensures forall i, j :: 0 <= i < j < |order| ==> order[i] != order[j]
    decreases |s|
  {
    order := [];
    if s != {} {
      var x :| x in s;
      var rest := Ordering(s - {x});
      order := rest + [x];
      assert x !in rest;
    }
  }

  /** A namespace no permission mentions and that is not the pipeline's own. */
  lemma Elsewhere(f: Factory) returns (ns: string)
    ensures In(ns) !in Declared(f.permissions) && ns != f.namespace
  {
    var names := {f.namespace} + set p | p in f.permissions && p.scope.In? :: p.scope.namespace;
    var bound := LengthBound(names);
    ns := seq(bound, _ => 'n');
    assert forall p :: p in f.permissions && p.scope.In? ==> p.scope.namespace in names;
    assert f.namespace in names;
  }

  lemma SuffixLast(f: Factory) returns (order: seq<Scope>)
    requires Clash(f) && In(f.allLabel) !in Declared(f.permissions)
    ensures Order(f, order) && Content(f, order, All) == RulesFor(f.permissions, In(f.allSuffix))
  {
    var last := In(f.allSuffix);
    var front := Ordering(Declared(f.permissions) - {last});
    order := front + [last];
    assert last !in front;
    assert forall n :: n in order <==> n in front || n == last;
  }

  /** A rule on which the two entries differ is granted wrongly in some walking order. */
  lemma DisagreeingClash(f: Factory, gen: string -> string) returns (order: seq<Scope>)
    requires NamesFit(f, gen) && In(f.allLabel) !in Declared(f.permissions) && Clash(f) && !Agree(f)
    ensures Order(f, order) && !Faithful(f, gen, order)
  {
    order := SuffixLast(f);
    var r :| !AgreeOn(f, r);
    var ns := Elsewhere(f);
    GrantedIs(f, gen, order, r, ns);
    IntendedIs(f, r, ns);
    Undeclared(f, order, In(ns), r);
    assert !FaithfulAt(f, Compile(f, gen, order), r, ns);
  }

  /** The permissions keep their meaning in every walking order if and only if the two names do not
      clash, or declare the same rules anyway. */
  lemma FaithfulIff(f: Factory, gen: string -> string)
    requires NamesFit(f, gen) && In(f.allLabel) !in Declared(f.permissions)
    ensures (forall order :: Order(f, order) ==> Faithful(f, gen, order)) <==> !Clash(f) || Agree(f)
  {
    if !Clash(f) || Agree(f) {
      forall order | Order(f, order)
        ensures Faithful(f, gen, order)
      {
        if Clash(f) {
          AgreeingClash(f, gen, order);
        } else {
          DeclaredIsGranted(f, gen, order);
        }
      }
    } else {
      var order := DisagreeingClash(f, gen);
    }
  }

  /** For instance: one rule for "*" and another one for the namespace kratix-all-namespaces. */
  lemma AllNamespacesClash(id: string, namespace: string, group: string, plural: string, r: PolicyRule, q: PolicyRule, gen: string -> string)
    requires r != q
    ensures var f := Factory(ALL_LABEL, ALL_SUFFIX, id, namespace, true, Some(group), plural, [Permission(All, r), Permission(In(ALL_SUFFIX), q)]);
      && Clash(f) && !Agree(f)
      && (NamesFit(f, gen) ==> exists order :: Order(f, order) && !Faithful(f, gen, order))
  {
    var permissions := [Permission(All, r), Permission(In(ALL_SUFFIX), q)];
    var f := Factory(ALL_LABEL, ALL_SUFFIX, id, namespace, true, Some(group), plural, permissions);
    assert permissions[0] in permissions && permissions[1] in permissions;
    RulesForMember(permissions, All, r);
    RulesForMember(permissions, In(ALL_SUFFIX), r);
    assert !AgreeOn(f, r);
    NotTheLabel();
    if NamesFit(f, gen) {
      var order := DisagreeingClash(f, gen);
    }
  }

  lemma NotTheLabel()
    ensures ALL_LABEL != ALL_SUFFIX
  {
    assert ALL_LABEL[6] == '_' && ALL_SUFFIX[6] == '-';
  }

  // --------------------------------------------------------------- requests

  /** What a pipeline asks the API server for. */
  datatype ApiRequest = ApiRequest(verb: string, group: string, resource: string)

  predicate Covers(patterns: seq<string>, value: string) {
    value in patterns || "*" in patterns
  }

  /** How the API server reads a rule. */
  predicate Permits(r: PolicyRule, q: ApiRequest) {
    Covers(r.verbs, q.verb) && Covers(r.groups, q.group) && Covers(r.resources, q.resource)
  }

  const READ_AND_WRITE := {"get", "list", "update", "create", "patch"}

  /** Without any declaration a resource pipeline may read and write, but not delete, the requests of its
      own Promise, and do anything with Works, in its own namespace; a Promise pipeline may read and
      write, but not delete, Promises and Works everywhere. */
  predicate PermittedAnyway(f: Factory, q: ApiRequest, ns: string) {
    if f.resourceWorkflow then
      ns == f.namespace &&
      (|| (f.group == Some(q.group) && q.resource in {f.plural, f.plural + "/status"} && q.verb in READ_AND_WRITE)
       || (q.group == "platform.kratix.io" && q.resource == "works"))
    else q.group == "platform.kratix.io" && q.resource in {"promises", "promises/status", "works"} && q.verb in READ_AND_WRITE
  }

  /** Names of API groups and resources are no patterns. */
  predicate PlainNames(f: Factory) {
    f.resourceWorkflow ==> f.group.Some? && f.group.value != "*" && f.plural != "*"
  }

  lemma PlainCovers(patterns: seq<string>, value: string)
    requires "*" !in patterns
    ensures Covers(patterns, value) <==> value in patterns
  {
  }

  lemma VerbsCovered(verb: string)
    ensures Covers(["get", "list", "update", "create", "patch"], verb) <==> verb in READ_AND_WRITE
  {
    var verbs := ["get", "list", "update", "create", "patch"];
    assert forall v :: v in verbs ==> |v| > 1;
    assert |"*"| == 1;
    PlainCovers(verbs, verb);
  }

  lemma DefaultsPermit(f: Factory, q: ApiRequest, ns: string)
    requires PlainNames(f)
    ensures (exists r :: IsDefault(f, r, ns) && Permits(r, q)) <==> PermittedAnyway(f, q, ns)
  {
    VerbsCovered(q.verb);
    assert |"*"| == 1;
    PlainCovers(["platform.kratix.io"], q.group);
    if f.resourceWorkflow {
      var own, works := ResourceDefaults(f)[0], ResourceDefaults(f)[1];
      assert forall r :: r in ResourceDefaults(f) <==> r == own || r == works;
      assert |f.plural + "/status"| > 1;
      PlainCovers([f.group.value], q.group);
      PlainCovers([f.plural, f.plural + "/status"], q.resource);
      PlainCovers(["works"], q.resource);
      assert Covers(["*"], q.verb);
      assert ns == f.namespace ==> IsDefault(f, own, ns) && IsDefault(f, works, ns);
    } else {
      var all := PromiseDefaults()[0];
      assert forall r :: r in PromiseDefaults() <==> r == all;
      PlainCovers(["promises", "promises/status", "works"], q.resource);
      assert IsDefault(f, all, ns);
    }
  }

  /** Some declared permission for this namespace, for all of them, or for the pipeline's own permits it. */
  ghost predicate PermittedAsDeclared(f: Factory, q: ApiRequest, ns: string) {
    exists p :: p in f.permissions && Permits(p.rule, q) &&
      (p.scope == All || p.scope == In(ns) || (p.scope == Own && ns == f.namespace))
  }

  /** Without the clash a pipeline may make a request if and only if it may anyway or a declared
      permission says so. */
  lemma RequestPermittedIff(f: Factory, gen: string -> string, order: seq<Scope>, q: ApiRequest, ns: string)
    requires NamesFit(f, gen) && Order(f, order) && !Clash(f) && PlainNames(f)
    ensures (exists r :: Granted(f, Compile(f, gen, order), r, ns) && Permits(r, q)) <==>
      PermittedAnyway(f, q, ns) || PermittedAsDeclared(f, q, ns)
  {
    DeclaredIsGranted(f, gen, order);
    DefaultsPermit(f, q, ns);
    IntendedPermits(f, q, ns);
    var a := Compile(f, gen, order);
    assert forall r :: FaithfulAt(f, a, r, ns);
    SamePermitted(f, a, q, ns);
  }

  lemma SamePermitted(f: Factory, a: Applied, q: ApiRequest, ns: string)
    requires forall r :: FaithfulAt(f, a, r, ns)
    ensures (exists r :: Granted(f, a, r, ns) && Permits(r, q)) <==> exists r :: Intended(f, r, ns) && Permits(r, q)
  {
    if r :| Granted(f, a, r, ns) && Permits(r, q) {
      assert FaithfulAt(f, a, r, ns);
    }
    if r :| Intended(f, r, ns) && Permits(r, q) {
      assert FaithfulAt(f, a, r, ns);
    }
  }

  lemma IntendedPermits(f: Factory, q: ApiRequest, ns: string)
    ensures (exists r :: Intended(f, r, ns) && Permits(r, q)) <==>
      (exists r :: IsDefault(f, r, ns) && Permits(r, q)) || PermittedAsDeclared(f, q, ns)
  {
    if r :| IsDefault(f, r, ns) && Permits(r, q) {
      assert Intended(f, r, ns);
    }
    if p :| p in f.permissions && Permits(p.rule, q) && (p.scope == All || p.scope == In(ns) || (p.scope == Own && ns == f.namespace)) {
      assert Intended(f, p.rule, ns);
    }
  }
}
