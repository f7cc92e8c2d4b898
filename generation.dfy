/**
 * The per-service generation loop (`parse_yaml`): for every service record, in
 * order, skip it if it is incomplete outside core mode, otherwise create its
 * output directory if the snapshot taken before the loop lacks it, make sure its
 * namespace exists, and write its config map (if it has config values), its
 * service and its deployment.
 *
 * `Run` states what the loop does as a function of the records, and the method
 * `ParseYaml` performs it step by step; the lemmas state what the source
 * promises about the resulting trace of actions.
 */
module Generation {
  import opened Wrappers
  import opened Scalars
  import opened Strings
  import opened Manifests
  import opened Actions

  /**
   * The fields of one service record the generator reads; `None` is a key the
   * record does not have. Config values that are absent, null or empty are all
   * the empty dictionary.
   */
  datatype ServiceInfo = ServiceInfo(
    image: Option<Scalar>,
    name: Option<string>,
    port: Option<Scalar>,
    containerPath: Option<Scalar>,
    serviceLocalPath: Option<Scalar>,
    replicaSet: Option<Scalar>,
    configmaps: KeyValues)

  /** The `service` section: service keys and their records, in insertion order. */
  type ServiceSet = seq<(string, ServiceInfo)>

  /** Namespace query answered by the cluster, given the actions issued so far in the run. */
  type NamespaceOracle = (seq<Action>, string) -> bool

  /**
   * What one run depends on besides the records: core mode, the replica
   * override, the directories present before the loop, the namespace query.
   */
  datatype Env = Env(isCore: bool, override: Option<int>, dirs: set<string>, nsExists: NamespaceOracle)

  /** `parsed_data.get("service", {})`. */
  function ServicesOf(section: Option<ServiceSet>): ServiceSet {
    section.GetOr([])
  }

  predicate HasMandatoryFields(info: ServiceInfo) {
    info.image.Some? && info.name.Some? && info.port.Some? && info.containerPath.Some? && info.serviceLocalPath.Some?
  }

  /** A record is processed in core mode, or when it has every mandatory field. */
  predicate Processed(info: ServiceInfo, isCore: bool) {
    isCore || HasMandatoryFields(info)
  }

  /** `service_info.get("name", "")`. */
  function NameOf(info: ServiceInfo): string {
    info.name.GetOr("")
  }

  /** `service_info.get(field, "")` for a scalar field. */
  function FieldOr(field: Option<Scalar>): Scalar {
    field.GetOr(Str(""))
  }

  /** The replica count: the override when there is one, otherwise `ReplicaSet`, otherwise `""`. */
  function ReplicaValue(info: ServiceInfo, override: Option<int>): (r: Scalar)
    ensures override.Some? ==> r == Int(override.value)
    ensures override.None? && info.replicaSet.Some? ==> r == info.replicaSet.value
    ensures override.None? && info.replicaSet.None? ==> r == Str("")
  {
    if override.Some? then Int(override.value) else FieldOr(info.replicaSet)
  }

  function ConfigMapWrite(info: ServiceInfo): Action {
    var name := NameOf(info);
    WriteFile(name + "/configmap.yml", ConfigMapDoc(GenerateConfigMap(name, Lower(name), info.configmaps)))
  }

  function ServiceWrite(info: ServiceInfo): Action {
    var name := NameOf(info);
    WriteFile(name + "/service.yaml", ServiceDoc(GenerateService(name, Lower(name), FieldOr(info.port))))
  }

  function DeploymentWrite(info: ServiceInfo, override: Option<int>): Action {
    var name := NameOf(info);
    WriteFile(name + "/deployment.yml",
              DeploymentDoc(GenerateDeployment(name, ReplicaValue(info, override), FieldOr(info.image),
                                               FieldOr(info.port), FieldOr(info.containerPath),
                                               FieldOr(info.serviceLocalPath))))
  }

  /** The file writes for a processed record: the config map only when it has config values. */
  function Writes(info: ServiceInfo, override: Option<int>): seq<Action> {
    (if info.configmaps == [] then [] else [ConfigMapWrite(info)])
      + [ServiceWrite(info), DeploymentWrite(info, override)]
  }

  function MakeDirs(info: ServiceInfo, dirs: set<string>): seq<Action> {
    if NameOf(info) in dirs then [] else [MakeDir(NameOf(info))]
  }

  /** The trace up to and including the namespace query, which is what the query's answer may depend on. */
  function Probe(info: ServiceInfo, env: Env, before: seq<Action>): seq<Action> {
    before + MakeDirs(info, env.dirs) + [CheckNamespace(Lower(NameOf(info)))]
  }

  function NamespaceMissing(info: ServiceInfo, env: Env, before: seq<Action>): bool {
    !env.nsExists(Probe(info, env, before), Lower(NameOf(info)))
  }

  /** The namespace creation, issued only when the query reports the namespace missing. */
  function Creates(info: ServiceInfo, env: Env, before: seq<Action>): seq<Action> {
    if NamespaceMissing(info, env, before) then [CreateNamespace(Lower(NameOf(info)))] else []
  }

  /** The actions for one record, given the actions of the records before it. */
  function RecordActions(info: ServiceInfo, env: Env, before: seq<Action>): seq<Action> {
    if !Processed(info, env.isCore) then []
    else MakeDirs(info, env.dirs) + [CheckNamespace(Lower(NameOf(info)))] + Creates(info, env, before) + Writes(info, env.override)
  }

  /** The actions of the whole loop over `services`. */
  function Run(services: ServiceSet, env: Env): seq<Action>
    decreases |services|
  {
    if services == [] then []
    else
      var prev := Run(services[..|services| - 1], env);
      prev + RecordActions(services[|services| - 1].1, env, prev)
  }

  /** `parse_yaml` over an already loaded `service` section. */
  method ParseYaml(section: Option<ServiceSet>, override: Option<int>, isCore: bool, dirs: set<string>,
                   nsExists: NamespaceOracle)
    returns (actions: seq<Action>)
    ensures actions == Run(ServicesOf(section), Env(isCore, override, dirs, nsExists))
  {
    var services := if section.Some? then section.value else [];
    var env := Env(isCore, override, dirs, nsExists);
    actions := [];
    for i := 0 to |services|
      invariant actions == Run(services[..i], env)
    {
      var info := services[i].1;
      assert services[..i + 1][..i] == services[..i];
      if !isCore && (info.image.None? || info.name.None? || info.port.None?
                     || info.containerPath.None? || info.serviceLocalPath.None?) {
        continue;
      }
      actions := ProcessRecord(info, env, actions);
    }
    assert services[..|services|] == services;
  }

  /** The body of the loop for a record that is not skipped, appending to the actions issued so far. */
  method ProcessRecord(info: ServiceInfo, env: Env, before: seq<Action>) returns (actions: seq<Action>)
    requires Processed(info, env.isCore)
    ensures actions == before + RecordActions(info, env, before)
  {
    var imageAddress := info.image.GetOr(Str(""));
    var name := info.name.GetOr("");
    var port := info.port.GetOr(Str(""));
    var containerPath := info.containerPath.GetOr(Str(""));
    var serviceLocalPath := info.serviceLocalPath.GetOr(Str(""));
    var replicaSet := info.replicaSet.GetOr(Str(""));
    actions := before;
    if name !in env.dirs {
      actions := actions + [MakeDir(name)];
    }
    assert actions == before + MakeDirs(info, env.dirs);
    if env.override.Some? {
      replicaSet := Int(env.override.value);
    } else {
      replicaSet := info.replicaSet.GetOr(Str(""));
    }
    var ns := Lower(name);
    actions := actions + [CheckNamespace(ns)];
    assert actions == Probe(info, env, before);
    var create: seq<Action> := [];
    if !env.nsExists(actions, ns) {
      create := [CreateNamespace(ns)];
    }
    actions := actions + create;
    var configValues := info.configmaps;
    var cm: seq<Action> := [];
    if configValues != [] {
      cm := [WriteFile(name + "/configmap.yml", ConfigMapDoc(GenerateConfigMap(name, ns, configValues)))];
      assert cm == [ConfigMapWrite(info)];
    }
    var sw := WriteFile(name + "/service.yaml", ServiceDoc(GenerateService(name, ns, port)));
    assert sw == ServiceWrite(info);
    var dw := WriteFile(name + "/deployment.yml",
                        DeploymentDoc(GenerateDeployment(name, replicaSet, imageAddress, port,
                                                         containerPath, serviceLocalPath)));
    assert dw == DeploymentWrite(info, env.override);
    assert cm + [sw, dw] == Writes(info, env.override);
    actions := actions + (cm + [sw, dw]);
    SplitRecordActions(info, env, before);
  }

  lemma SplitRecordActions(info: ServiceInfo, env: Env, before: seq<Action>)
    requires Processed(info, env.isCore)
    ensures before + RecordActions(info, env, before) == Probe(info, env, before) + Creates(info, env, before) + Writes(info, env.override)
  {
  }

  lemma RunUnfold(services: ServiceSet, env: Env)
    requires services != []
    ensures var init := services[..|services| - 1];
      Run(services, env) == Run(init, env) + RecordActions(services[|services| - 1].1, env, Run(init, env))
  {
  }

  /** How often `a` occurs in a record's actions, piece by piece. */
  lemma RecordCount(info: ServiceInfo, env: Env, before: seq<Action>, a: Action)
    requires Processed(info, env.isCore)
    ensures Count(RecordActions(info, env, before), a)
         == Count(MakeDirs(info, env.dirs), a) + (if a == CheckNamespace(Lower(NameOf(info))) then 1 else 0)
            + Count(Creates(info, env, before), a) + Count(Writes(info, env.override), a)
  {
    var m := MakeDirs(info, env.dirs);
    var c := [CheckNamespace(Lower(NameOf(info)))];
    var cr := Creates(info, env, before);
    CountAppend(m + c + cr, Writes(info, env.override), a);
    CountAppend(m + c, cr, a);
    CountAppend(m, c, a);
  }

  /** A record produces only directory, namespace and file actions. */
  lemma RecordActionKinds(info: ServiceInfo, env: Env, before: seq<Action>, a: Action)
    requires a in RecordActions(info, env, before)
    ensures a.MakeDir? || a.CheckNamespace? || a.CreateNamespace? || a.WriteFile?
  {
  }

  /* ---------- one record ---------- */

  /**
   * A record outside core mode that lacks `image`, `name`, `port`,
   * `ContainerPath` or `ServiceLocalPath` yields no action at all (no directory,
   * no namespace query, no file); every other record, and every record in core
   * mode, yields some.
   */
  lemma SkippedRecordIsSilent(info: ServiceInfo, env: Env, before: seq<Action>)
    ensures (RecordActions(info, env, before) == []) == (!env.isCore && !HasMandatoryFields(info))
  {
  }

  /** The directory is created when, and only when, the snapshot lacks the record's name. */
  lemma RecordMakeDirs(info: ServiceInfo, env: Env, before: seq<Action>, d: string)
    ensures Count(RecordActions(info, env, before), MakeDir(d))
         == if Processed(info, env.isCore) && d == NameOf(info) && d !in env.dirs then 1 else 0
  {
    if Processed(info, env.isCore) {
      RecordCount(info, env, before, MakeDir(d));
      CountAbsent(Creates(info, env, before), MakeDir(d));
      CountAbsent(Writes(info, env.override), MakeDir(d));
    }
  }

  /**
   * A processed record queries its lowered name as namespace exactly once, and
   * creates that namespace once when the query reports it missing, never otherwise.
   */
  lemma RecordNamespaceActions(info: ServiceInfo, env: Env, before: seq<Action>, n: string)
    ensures var r := RecordActions(info, env, before);
      && Count(r, CheckNamespace(n)) == (if Processed(info, env.isCore) && n == Lower(NameOf(info)) then 1 else 0)
      && Count(r, CreateNamespace(n))
         == (if Processed(info, env.isCore) && n == Lower(NameOf(info)) && NamespaceMissing(info, env, before) then 1 else 0)
  {
    if Processed(info, env.isCore) {
      RecordCheckCount(info, env, before, n);
      RecordCreateCount(info, env, before, n);
    }
  }

  lemma RecordCheckCount(info: ServiceInfo, env: Env, before: seq<Action>, n: string)
    requires Processed(info, env.isCore)
    ensures Count(RecordActions(info, env, before), CheckNamespace(n)) == if n == Lower(NameOf(info)) then 1 else 0
  {
    RecordCount(info, env, before, CheckNamespace(n));
    CountAbsent(MakeDirs(info, env.dirs), CheckNamespace(n));
    CountAbsent(Creates(info, env, before), CheckNamespace(n));
    CountAbsent(Writes(info, env.override), CheckNamespace(n));
  }

  lemma RecordCreateCount(info: ServiceInfo, env: Env, before: seq<Action>, n: string)
    requires Processed(info, env.isCore)
    ensures Count(RecordActions(info, env, before), CreateNamespace(n))
         == if n == Lower(NameOf(info)) && NamespaceMissing(info, env, before) then 1 else 0
  {
    RecordCount(info, env, before, CreateNamespace(n));
    CountAbsent(MakeDirs(info, env.dirs), CreateNamespace(n));
    CountAbsent(Writes(info, env.override), CreateNamespace(n));
  }

  /**
   * A processed record writes `service.yaml` and `deployment.yml` under its
   * name, and `configmap.yml` exactly when it has config values; it writes no
   * other file.
   */
  lemma RecordWrites(info: ServiceInfo, env: Env, before: seq<Action>)
    ensures var r := RecordActions(info, env, before);
      && (ServiceWrite(info) in r <==> Processed(info, env.isCore))
      && (DeploymentWrite(info, env.override) in r <==> Processed(info, env.isCore))
      && (ConfigMapWrite(info) in r <==> Processed(info, env.isCore) && info.configmaps != [])
      && (forall a :: a in r && a.WriteFile? ==> a in Writes(info, env.override))
      && (forall a :: a in Writes(info, env.override) ==>
            a.WriteFile? && a.path in {NameOf(info) + "/configmap.yml", NameOf(info) + "/service.yaml", NameOf(info) + "/deployment.yml"})
  {
  }

  /**
   * The documents a processed record writes: the Service and the ConfigMap go
   * to the lowered name, the Deployment to the raw name; the Service uses the
   * port twice and the name as name, label and selector; the Deployment carries
   * the replica value and refers to `name-env` even when no config map is written.
   */
  lemma RecordDocuments(info: ServiceInfo, override: Option<int>)
    ensures var name := NameOf(info);
      var svc := ServiceWrite(info).doc.service;
      var dep := DeploymentWrite(info, override).doc.deployment;
      var cm := ConfigMapWrite(info).doc.configMap;
      && svc.namespace == Lower(name) && cm.namespace == Lower(name) && dep.namespace == name
      && svc.name == name && svc.labelApp == name && svc.selectorApp == name
      && svc.port == FieldOr(info.port) && svc.targetPort == FieldOr(info.port)
      && dep.replicas == ReplicaValue(info, override)
      && dep.configMapRef == ConfigMapName(name) == cm.name
      && dep.mountName == dep.volumeName == VolumeName(name)
      && cm.data == RewriteKeys(info.configmaps)
  {
  }

  /**
   * A processed record without config values gets no `configmap.yml`, yet its
   * Deployment still takes its environment from the config map `name-env`.
   */
  lemma EnvFromWithoutConfigMap(info: ServiceInfo, env: Env, before: seq<Action>)
    requires Processed(info, env.isCore) && info.configmaps == []
    ensures var r := RecordActions(info, env, before);
      && DeploymentWrite(info, env.override) in r
      && DeploymentWrite(info, env.override).doc.deployment.configMapRef == ConfigMapName(NameOf(info))
      && forall a :: a in r && a.WriteFile? ==> a.path != NameOf(info) + "/configmap.yml"
  {
    var name := NameOf(info);
    assert (name + "/service.yaml")[|name| + 1] == 's';
    assert (name + "/deployment.yml")[|name| + 1] == 'd';
    assert (name + "/configmap.yml")[|name| + 1] == 'c';
  }

  /* ---------- the whole loop ---------- */

  /** Processed records, among `services`, whose name is `d`. */
  function NameTally(services: ServiceSet, isCore: bool, d: string): nat
    decreases |services|
  {
    if services == [] then 0
    else
      var info := services[|services| - 1].1;
      NameTally(services[..|services| - 1], isCore, d) + (if Processed(info, isCore) && NameOf(info) == d then 1 else 0)
  }

  /** Processed records, among `services`, whose lowered name is `n`. */
  function NamespaceTally(services: ServiceSet, isCore: bool, n: string): nat
    decreases |services|
  {
    if services == [] then 0
    else
      var info := services[|services| - 1].1;
      NamespaceTally(services[..|services| - 1], isCore, n) + (if Processed(info, isCore) && Lower(NameOf(info)) == n then 1 else 0)
  }

  /**
   * The directory snapshot is taken once: a name outside it is created once per
   * processed record that has it (twice for two such records), a name inside it never.
   * The real script's second `os.makedirs` of a name raises `FileExistsError` and ends the run.
   */
  lemma {:induction false} RunMakeDirCount(services: ServiceSet, env: Env, d: string)
    ensures Count(Run(services, env), MakeDir(d)) == if d in env.dirs then 0 else NameTally(services, env.isCore, d)
    decreases |services|
  {
    if services != [] {
      var init := services[..|services| - 1];
      RunMakeDirCount(init, env, d);
      CountAppend(Run(init, env), RecordActions(services[|services| - 1].1, env, Run(init, env)), MakeDir(d));
      RecordMakeDirs(services[|services| - 1].1, env, Run(init, env), d);
    }
  }

  /** Each processed record queries its namespace once; creates never outnumber queries for a namespace. */
  lemma {:induction false} RunNamespaceCounts(services: ServiceSet, env: Env, n: string)
    ensures Count(Run(services, env), CheckNamespace(n)) == NamespaceTally(services, env.isCore, n)
    ensures Count(Run(services, env), CreateNamespace(n)) <= Count(Run(services, env), CheckNamespace(n))
    decreases |services|
  {
    if services != [] {
      var init := services[..|services| - 1];
      var info := services[|services| - 1].1;
      RunNamespaceCounts(init, env, n);
      CountAppend(Run(init, env), RecordActions(info, env, Run(init, env)), CheckNamespace(n));
      CountAppend(Run(init, env), RecordActions(info, env, Run(init, env)), CreateNamespace(n));
      RecordNamespaceActions(info, env, Run(init, env), n);
    }
  }

  /** Every namespace creation comes right after the query for that same namespace. */
  predicate CreatesFollowChecks(acts: seq<Action>) {
    forall i :: 0 <= i < |acts| && acts[i].CreateNamespace? ==> 0 < i && acts[i - 1] == CheckNamespace(acts[i].namespace)
  }

  lemma {:induction false} RunCreatesFollowChecks(services: ServiceSet, env: Env)
    ensures CreatesFollowChecks(Run(services, env))
    decreases |services|
  {
    if services != [] {
      var init := services[..|services| - 1];
      var info := services[|services| - 1].1;
      var prev := Run(init, env);
      RunCreatesFollowChecks(init, env);
      var r := RecordActions(info, env, prev);
      var all := prev + r;
      forall i | 0 <= i < |all| && all[i].CreateNamespace?
        ensures 0 < i && all[i - 1] == CheckNamespace(all[i].namespace)
      {
        if i < |prev| {
          assert all[i] == prev[i] && all[i - 1] == prev[i - 1];
        } else {
          var k := i - |prev|;
          assert all[i] == r[k];
          var m := MakeDirs(info, env.dirs);
          var ns := Lower(NameOf(info));
          var create := if NamespaceMissing(info, env, prev) then [CreateNamespace(ns)] else [];
          assert r == m + [CheckNamespace(ns)] + create + Writes(info, env.override);
          assert k == |m| + 1;
          assert all[i - 1] == r[|m|];
        }
      }
    }
  }

  /** Records are processed in order: what the loop has done after `k` records is a prefix of the whole trace. */
  lemma {:induction false} RunPrefix(services: ServiceSet, env: Env, k: nat)
    requires k <= |services|
    ensures Run(services[..k], env) <= Run(services, env)
    decreases |services|
  {
    if k < |services| {
      var init := services[..|services| - 1];
      assert services[..k] == init[..k];
      RunPrefix(init, env, k);
    } else {
      assert services[..k] == services;
    }
  }

  /** The actions of record `j`, issued after those of the records before it. */
  function ActionsOf(services: ServiceSet, env: Env, j: nat): seq<Action>
    requires j < |services|
  {
    RecordActions(services[j].1, env, Run(services[..j], env))
  }

  /**
   * Skipping a record does not stop the loop: every record's own actions, in
   * order, follow those of the records before it in the trace; for a skipped
   * record they are none.
   */
  lemma RunContinuesPastEveryRecord(services: ServiceSet, env: Env, j: nat)
    requires j < |services|
    ensures Run(services[..j], env) + ActionsOf(services, env, j) <= Run(services, env)
  {
    RunPrefix(services, env, j + 1);
    assert services[..j + 1][..j] == services[..j];
  }

  /** Every action of the loop belongs to a processed record. */
  lemma {:induction false} RunOnlyFromProcessed(services: ServiceSet, env: Env, a: Action)
    requires a in Run(services, env)
    ensures exists j :: 0 <= j < |services| && Processed(services[j].1, env.isCore) && a in ActionsOf(services, env, j)
    decreases |services|
  {
    var last := |services| - 1;
    var init := services[..last];
    RunUnfold(services, env);
    if a in Run(init, env) {
      RunOnlyFromProcessed(init, env, a);
      var j :| 0 <= j < |init| && Processed(init[j].1, env.isCore) && a in ActionsOf(init, env, j);
      assert init[..j] == services[..j] && init[j] == services[j];
      assert ActionsOf(init, env, j) == ActionsOf(services, env, j);
    } else {
      assert a in ActionsOf(services, env, last);
    }
  }

  /** The generation loop applies and deletes nothing: that is left to `--start` and `--stop`. */
  lemma RunAppliesNothing(services: ServiceSet, env: Env, a: Action)
    requires a in Run(services, env)
    ensures a.MakeDir? || a.CheckNamespace? || a.CreateNamespace? || a.WriteFile?
  {
    RunOnlyFromProcessed(services, env, a);
    var j :| 0 <= j < |services| && Processed(services[j].1, env.isCore) && a in ActionsOf(services, env, j);
    RecordActionKinds(services[j].1, env, Run(services[..j], env), a);
  }

  /**
   * In core mode no record is skipped: every record's namespace is queried and
   * its service and deployment are written. (The real script stops at
   * `os.makedirs("")` for a record without `name`.)
   */
  lemma CoreWritesEveryRecord(services: ServiceSet, env: Env, j: nat)
    requires env.isCore && j < |services|
    ensures var info := services[j].1;
      && CheckNamespace(Lower(NameOf(info))) in Run(services, env)
      && ServiceWrite(info) in Run(services, env)
      && DeploymentWrite(info, env.override) in Run(services, env)
  {
    RunContinuesPastEveryRecord(services, env, j);
    var info := services[j].1;
    var prev := Run(services[..j], env);
    var r := ActionsOf(services, env, j);
    assert CheckNamespace(Lower(NameOf(info))) in r;
    RecordWrites(info, env, prev);
    assert forall a :: a in r ==> a in prev + r;
  }
}
