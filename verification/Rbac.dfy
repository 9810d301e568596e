/** From a pipeline's declared permissions to RBAC objects
    (api/v1alpha1/pipeline_factory.go), and what those objects grant. */
module Rbac {
  import opened Wrappers

  datatype PolicyRule = PolicyRule(groups: seq<string>, resources: seq<string>, verbs: seq<string>)

  /** The resourceNamespace of a declared permission: empty, "*", or a namespace's name. */
  datatype Scope = Own | All | In(namespace: string)

  datatype Permission = Permission(scope: Scope, rule: PolicyRule)

  const ALL_LABEL := "kratix_all_namespaces"
  const ALL_SUFFIX := "kratix-all-namespaces"

  /** `group`: the API group of the Promise's CRD, when its API can be read.  `allLabel` and
      `allSuffix` stand for "*" in labels and in names; nothing below depends on their values. */
  datatype Factory = Factory(
    allLabel: string,
    allSuffix: string,
    id: string,
    namespace: string,
    resourceWorkflow: bool,
    group: Option<string>,
    plural: string,
    permissions: seq<Permission>)

  /** A Role in the pipeline's namespace. */
  datatype Role = Role(name: string, rules: seq<PolicyRule>)

  /** `labelled`: the value of the resource-namespace label. */
  datatype ClusterRole = ClusterRole(name: string, labelled: Option<string>, rules: seq<PolicyRule>)

  datatype RoleRef = ToRole(role: string) | ToClusterRole(clusterRole: string)

  datatype RoleBinding = RoleBinding(namespace: string, name: string, ref: RoleRef)

  datatype ClusterRoleBinding = ClusterRoleBinding(name: string, clusterRole: string)

  // --------------------------------------------------------- default rules

  function ResourceDefaults(f: Factory): seq<PolicyRule> {
    [PolicyRule([if f.group.Some? then f.group.value else ""], [f.plural, f.plural + "/status"], ["get", "list", "update", "create", "patch"]),
     PolicyRule(["platform.kratix.io"], ["works"], ["*"])]
  }

  function PromiseDefaults(): seq<PolicyRule> {
    [PolicyRule(["platform.kratix.io"], ["promises", "promises/status", "works"], ["get", "list", "update", "create", "patch"])]
  }

  /** A rule every pipeline of this kind has in `ns`. */
  predicate IsDefault(f: Factory, r: PolicyRule, ns: string) {
    if f.resourceWorkflow then ns == f.namespace && r in ResourceDefaults(f) else r in PromiseDefaults()
  }

  // ------------------------------------------------------------ generation

  /** The rules declared for one scope, in declaration order. */
  function RulesFor(permissions: seq<Permission>, scope: Scope): seq<PolicyRule> {
    if permissions == [] then []
    else
      var rest, p := RulesFor(permissions[..|permissions| - 1], scope), permissions[|permissions| - 1];
      if p.scope == scope then rest + [p.rule] else rest
  }

  /** The scopes other than the pipeline's own namespace. */
  function Declared(permissions: seq<Permission>): set<Scope> {
    set p | p in permissions && !p.scope.Own? :: p.scope
  }

  function Roles(f: Factory, gen: string -> string): seq<Role> {
    (if f.resourceWorkflow then [Role(f.id, ResourceDefaults(f))] else []) +
    (if RulesFor(f.permissions, Own) == [] then [] else [Role(gen(f.id), RulesFor(f.permissions, Own))])
  }

  /** `gen` is GenerateDeterministicObjectName. */
  method MakeRoles(f: Factory, gen: string -> string) returns (ok: bool, roles: seq<Role>)
    ensures ok <==> !f.resourceWorkflow || f.group.Some?
    ensures ok ==> roles == Roles(f, gen)
  {
    roles := [];
    if f.resourceWorkflow {
      if f.group.None? {
        return false, [];
      }
      roles := roles + [Role(f.id, ResourceDefaults(f))];
    }
    if |f.permissions| > 0 {
      var rules: seq<PolicyRule> := [];
      var i := 0;
      while i < |f.permissions|
        invariant 0 <= i <= |f.permissions|
        invariant rules == RulesFor(f.permissions[..i], Own)
      {
        assert f.permissions[..i + 1][..i] == f.permissions[..i];
        if f.permissions[i].scope.Own? {
          rules := rules + [f.permissions[i].rule];
        }
        i := i + 1;
      }
      assert f.permissions[..i] == f.permissions;
      if |rules| > 0 {
        roles := roles + [Role(gen(f.id), rules)];
      }
    }
    ok := true;
  }

  function Suffix(f: Factory, scope: Scope): string
    requires !scope.Own?
  {
    if scope.All? then f.allSuffix else scope.namespace
  }

  function Label(f: Factory, scope: Scope): string
    requires !scope.Own?
  {
    if scope.All? then f.allLabel else scope.namespace
  }

  function Stem(f: Factory, suffix: string): string {
    f.id + "-" + suffix
  }

  function UserClusterRole(f: Factory, gen: string -> string, scope: Scope): ClusterRole
    requires !scope.Own?
  {
    ClusterRole(gen(Stem(f, Suffix(f, scope))), Some(Label(f, scope)), RulesFor(f.permissions, scope))
  }

  /** The cluster roles when the map of namespaces is walked in `order`. */
  function ClusterRoles(f: Factory, gen: string -> string, order: seq<Scope>): seq<ClusterRole>
    requires Own !in order
  {
    if order == [] then (if f.resourceWorkflow then [] else [ClusterRole(f.id, None, PromiseDefaults())])
    else ClusterRoles(f, gen, order[..|order| - 1]) + [UserClusterRole(f, gen, order[|order| - 1])]
  }

  /** `order` lists each declared scope once. */
  ghost predicate IsOrder(f: Factory, order: seq<Scope>) {
    && (forall n :: n in order <==> n in Declared(f.permissions))
    && (forall i, j :: 0 <= i < j < |order| ==> order[i] != order[j])
  }

  method MakeClusterRoles(f: Factory, gen: string -> string) returns (roles: seq<ClusterRole>, ghost order: seq<Scope>)
    ensures IsOrder(f, order) && Own !in order && roles == ClusterRoles(f, gen, order)
  {
    roles := [];
    if !f.resourceWorkflow {
      roles := [ClusterRole(f.id, None, PromiseDefaults())];
    }
    order := [];
    if |f.permissions| == 0 {
      return;
    }
    var rulesOf := GroupByScope(f.permissions);
    var todo := rulesOf.Keys;
    while todo != {}
      invariant todo <= rulesOf.Keys
      invariant forall n :: n in order <==> n in rulesOf && n !in todo
      invariant forall i, j :: 0 <= i < j < |order| ==> order[i] != order[j]
      invariant Own !in order && roles == ClusterRoles(f, gen, order)
      decreases todo
    {
      var scope :| scope in todo;
      var generatedName := gen(f.id + "-" + (if scope.All? then f.allSuffix else scope.namespace));
      var labelled := if scope.All? then f.allLabel else scope.namespace;
      roles := roles + [ClusterRole(generatedName, Some(labelled), rulesOf[scope])];
      assert (order + [scope])[..|order|] == order;
      order := order + [scope];
      todo := todo - {scope};
    }
  }

  method GroupByScope(permissions: seq<Permission>) returns (rulesOf: map<Scope, seq<PolicyRule>>)
    ensures rulesOf.Keys == Declared(permissions)
    ensures forall n :: n in rulesOf ==> rulesOf[n] == RulesFor(permissions, n)
  {
    rulesOf := map[];
    var i := 0;
    while i < |permissions|
      invariant 0 <= i <= |permissions|
      invariant forall n :: n in rulesOf <==> n in Declared(permissions[..i])
      invariant forall n :: n in rulesOf ==> rulesOf[n] == RulesFor(permissions[..i], n)
      invariant forall n: Scope :: n !in rulesOf && !n.Own? ==> RulesFor(permissions[..i], n) == []
    {
      var p := permissions[i];
      assert permissions[..i + 1][..i] == permissions[..i] && permissions[..i + 1] == permissions[..i] + [p];
      if !p.scope.Own? {
        if p.scope !in rulesOf {
          rulesOf := rulesOf[p.scope := []];
        }
        rulesOf := rulesOf[p.scope := rulesOf[p.scope] + [p.rule]];
      }
      i := i + 1;
    }
    assert permissions[..i] == permissions;
  }

  function BindRoles(f: Factory, roles: seq<Role>): seq<RoleBinding> {
    if roles == [] then []
    else
      var last := roles[|roles| - 1];
      BindRoles(f, roles[..|roles| - 1]) + [RoleBinding(f.namespace, last.name, ToRole(last.name))]
  }

  function BindScoped(f: Factory, gen: string -> string, roles: seq<ClusterRole>): seq<RoleBinding> {
    if roles == [] then []
    else
      var rest, last := BindScoped(f, gen, roles[..|roles| - 1]), roles[|roles| - 1];
      if last.labelled.Some? && last.labelled.value != f.allLabel
      then rest + [RoleBinding(last.labelled.value, gen(Stem(f, f.namespace)), ToClusterRole(last.name))]
      else rest
  }

  /** The service account lives in the pipeline's namespace and is the subject of every binding. */
  method MakeRoleBindings(f: Factory, gen: string -> string, roles: seq<Role>, clusterRoles: seq<ClusterRole>)
    returns (bindings: seq<RoleBinding>)
    ensures bindings == BindRoles(f, roles) + BindScoped(f, gen, clusterRoles)
  {
    bindings := [];
    var i := 0;
    while i < |roles|
      invariant 0 <= i <= |roles|
      invariant bindings == BindRoles(f, roles[..i])
    {
      assert roles[..i + 1][..i] == roles[..i];
      bindings := bindings + [RoleBinding(f.namespace, roles[i].name, ToRole(roles[i].name))];
      i := i + 1;
    }
    assert roles[..i] == roles;
    i := 0;
    while i < |clusterRoles|
      invariant 0 <= i <= |clusterRoles|
      invariant bindings == BindRoles(f, roles) + BindScoped(f, gen, clusterRoles[..i])
    {
      assert clusterRoles[..i + 1][..i] == clusterRoles[..i];
      var labelled := clusterRoles[i].labelled;
      if labelled.Some? && labelled.value != f.allLabel {
        bindings := bindings + [RoleBinding(labelled.value, gen(f.id + "-" + f.namespace), ToClusterRole(clusterRoles[i].name))];
      }
      i := i + 1;
    }
    assert clusterRoles[..i] == clusterRoles;
  }

  function BindEverywhere(f: Factory, gen: string -> string, roles: seq<ClusterRole>): seq<ClusterRoleBinding> {
    if roles == [] then []
    else
      var rest, last := BindEverywhere(f, gen, roles[..|roles| - 1]), roles[|roles| - 1];
      if last.labelled.None? then rest + [ClusterRoleBinding(last.name, last.name)]
      else if last.labelled.value == f.allLabel then rest + [ClusterRoleBinding(gen(Stem(f, f.namespace)), last.name)]
      else rest
  }

  method MakeClusterRoleBindings(f: Factory, gen: string -> string, roles: seq<ClusterRole>)
    returns (bindings: seq<ClusterRoleBinding>)
    ensures bindings == BindEverywhere(f, gen, roles)
  {
    bindings := [];
    var i := 0;
    while i < |roles|
      invariant 0 <= i <= |roles|
      invariant bindings == BindEverywhere(f, gen, roles[..i])
    {
      assert roles[..i + 1][..i] == roles[..i];
      var role := roles[i];
      if role.labelled.None? {
        bindings := bindings + [ClusterRoleBinding(role.name, role.name)];
      } else if role.labelled.value == f.allLabel {
        bindings := bindings + [ClusterRoleBinding(gen(f.id + "-" + f.namespace), role.name)];
      }
      i := i + 1;
    }
    assert roles[..i] == roles;
  }

  // ------------------------------------------- what the API server then holds

  /** The objects by name; of two with one name the later one stays. */
  datatype Applied = Applied(
    roles: map<string, seq<PolicyRule>>,
    clusterRoles: map<string, seq<PolicyRule>>,
    bindings: map<(string, string), RoleRef>,
    clusterBindings: map<string, string>)

  function ApplyRoles(s: seq<Role>): map<string, seq<PolicyRule>> {
    if s == [] then map[] else ApplyRoles(s[..|s| - 1])[s[|s| - 1].name := s[|s| - 1].rules]
  }

  function ApplyClusterRoles(s: seq<ClusterRole>): map<string, seq<PolicyRule>> {
    if s == [] then map[] else ApplyClusterRoles(s[..|s| - 1])[s[|s| - 1].name := s[|s| - 1].rules]
  }

  function ApplyBindings(s: seq<RoleBinding>): map<(string, string), RoleRef> {
    if s == [] then map[] else ApplyBindings(s[..|s| - 1])[(s[|s| - 1].namespace, s[|s| - 1].name) := s[|s| - 1].ref]
  }

  function ApplyClusterBindings(s: seq<ClusterRoleBinding>): map<string, string> {
    if s == [] then map[] else ApplyClusterBindings(s[..|s| - 1])[s[|s| - 1].name := s[|s| - 1].clusterRole]
  }

  function Compile(f: Factory, gen: string -> string, order: seq<Scope>): Applied
    requires Own !in order
  {
    var crs := ClusterRoles(f, gen, order);
    Applied(ApplyRoles(Roles(f, gen)), ApplyClusterRoles(crs),
            ApplyBindings(BindRoles(f, Roles(f, gen)) + BindScoped(f, gen, crs)),
            ApplyClusterBindings(BindEverywhere(f, gen, crs)))
  }

  function RulesOf<K>(table: map<K, seq<PolicyRule>>, k: K): seq<PolicyRule> {
    if k in table then table[k] else []
  }

  function Resolve(f: Factory, a: Applied, ns: string, ref: RoleRef): seq<PolicyRule> {
    match ref
    case ToRole(name) => if ns == f.namespace then RulesOf(a.roles, name) else []
    case ToClusterRole(name) => RulesOf(a.clusterRoles, name)
  }

  /** RBAC evaluation: the service account may use `r` in `ns`. */
  ghost predicate Granted(f: Factory, a: Applied, r: PolicyRule, ns: string) {
    || (exists name :: (ns, name) in a.bindings && r in Resolve(f, a, ns, a.bindings[(ns, name)]))
    || (exists name :: name in a.clusterBindings && r in RulesOf(a.clusterRoles, a.clusterBindings[name]))
  }

  /** What the pipeline's author asked for. */
  ghost predicate Intended(f: Factory, r: PolicyRule, ns: string) {
    || IsDefault(f, r, ns)
    || exists p :: p in f.permissions && p.rule == r &&
         (p.scope.All? || (if p.scope.Own? then ns == f.namespace else p.scope.namespace == ns))
  }
}
