/**
 * The three documents the generator renders for a service: the Service, the
 * Deployment and the ConfigMap. Each is kept as the values interpolated into
 * its template, slot by slot, so that the cross-references between documents
 * can be stated; the text of a document is its template's lines around them.
 */
module Manifests {
  import opened Wrappers
  import opened Scalars
  import opened Strings

  /** An insertion-ordered dictionary of config values, as Python's `dict` keeps it. */
  type KeyValues = seq<(string, Scalar)>

  datatype ServiceManifest = ServiceManifest(
    name: string,
    namespace: string,
    labelApp: string,
    port: Scalar,
    targetPort: Scalar,
    protocol: string,
    selectorApp: string,
    serviceType: string)

  datatype DeploymentManifest = DeploymentManifest(
    name: string,
    namespace: string,
    matchLabelApp: string,
    replicas: Scalar,
    templateLabelApp: string,
    containerName: string,
    image: Scalar,
    containerPort: Scalar,
    configMapRef: string,
    mountName: string,
    mountPath: Scalar,
    volumeName: string,
    hostPath: Scalar)

  datatype ConfigMapManifest = ConfigMapManifest(data: KeyValues, name: string, namespace: string)

  datatype Manifest =
    | ServiceDoc(service: ServiceManifest)
    | DeploymentDoc(deployment: DeploymentManifest)
    | ConfigMapDoc(configMap: ConfigMapManifest)

  /** The name of the config map that carries a service's environment. */
  function ConfigMapName(serviceName: string): string {
    serviceName + "-env"
  }

  /** The name of the host-path volume a service's container mounts. */
  function VolumeName(serviceName: string): string {
    serviceName + "-volume"
  }

  /* ---------- generate_service ---------- */

  /** The Service document: `name` names, labels and selects; `port` is both the port and the target port. */
  function GenerateService(serviceName: string, namespace: string, port: Scalar): (r: ServiceManifest)
    ensures r.name == serviceName && r.labelApp == serviceName && r.selectorApp == serviceName
    ensures r.namespace == namespace
    ensures r.port == port && r.targetPort == port
    ensures r.protocol == "TCP" && r.serviceType == "NodePort"
  {
    ServiceManifest(serviceName, namespace, serviceName, port, port, "TCP", serviceName, "NodePort")
  }

  function ServiceLines(m: ServiceManifest): seq<string> {
    [ "apiVersion: v1",
      "kind: Service",
      "metadata:",
      "  name: \"" + m.name + "\"",
      "  namespace: \"" + m.namespace + "\"",
      "  labels:",
      "    app: \"" + m.labelApp + "\"",
      "spec:",
      "  ports:",
      "    - port: " + Show(m.port),
      "      targetPort: " + Show(m.targetPort),
      "      protocol: " + m.protocol,
      "  selector:",
      "    app: \"" + m.selectorApp + "\"",
      "  type: " + m.serviceType ]
  }

  /** The text written to `service.yaml`. */
  function ServiceText(m: ServiceManifest): string {
    Document(ServiceLines(m))
  }

  /** The text of `service.yaml` splits back into the template's lines when no field holds a line break. */
  lemma ServiceTextSplits(m: ServiceManifest)
    requires AllSingleLines(ServiceLines(m))
    ensures SplitLines(ServiceText(m)) == [""] + ServiceLines(m)
  {
    DocumentLines(ServiceLines(m));
  }

  /* ---------- generate_deployment ---------- */

  /**
   * The Deployment document. `serviceName` is the object name, its namespace
   * (not lowered), the match label, the pod label and the container name; the
   * container mounts exactly the volume the pod declares and takes its
   * environment from the config map named `serviceName-env`, whether or not one
   * is generated.
   */
  function GenerateDeployment(serviceName: string, replicaSet: Scalar, image: Scalar, port: Scalar,
                              containerPath: Scalar, serviceLocalPath: Scalar): (r: DeploymentManifest)
    ensures r.name == serviceName && r.namespace == serviceName
    ensures r.matchLabelApp == serviceName && r.templateLabelApp == serviceName && r.containerName == serviceName
    ensures r.replicas == replicaSet && r.image == image && r.containerPort == port
    ensures r.configMapRef == ConfigMapName(serviceName)
    ensures r.mountName == VolumeName(serviceName) && r.volumeName == r.mountName
    ensures r.mountPath == containerPath && r.hostPath == serviceLocalPath
  {
    DeploymentManifest(serviceName, serviceName, serviceName, replicaSet, serviceName, serviceName, image, port,
                       serviceName + "-env", serviceName + "-volume", containerPath, serviceName + "-volume",
                       serviceLocalPath)
  }

  function DeploymentLines(m: DeploymentManifest): seq<string> {
    [ "apiVersion: apps/v1",
      "kind: Deployment",
      "metadata:",
      "  name: \"" + m.name + "\"",
      "  namespace: \"" + m.namespace + "\"",
      "spec:",
      "  selector:",
      "    matchLabels:",
      "      app: \"" + m.matchLabelApp + "\"",
      "  replicas: " + Show(m.replicas),
      "  template:",
      "    metadata:",
      "      labels:",
      "        app: \"" + m.templateLabelApp + "\"",
      "    spec:",
      "      containers:",
      "      - name: \"" + m.containerName + "\"",
      "        image: " + Show(m.image),
      "        ports:",
      "        - containerPort: " + Show(m.containerPort),
      "        envFrom:",
      "          - configMapRef:",
      "              name: " + m.configMapRef,
      "        volumeMounts:",
      "        - name: " + m.mountName,
      "          mountPath: " + Show(m.mountPath),
      "      volumes:",
      "      - name: " + m.volumeName,
      "        hostPath:",
      "          path: " + Show(m.hostPath) ]
  }

  /** The text written to `deployment.yml`. */
  function DeploymentText(m: DeploymentManifest): string {
    Document(DeploymentLines(m))
  }

  /** The text of `deployment.yml` splits back into the template's lines when no field holds a line break. */
  lemma DeploymentTextSplits(m: DeploymentManifest)
    requires AllSingleLines(DeploymentLines(m))
    ensures SplitLines(DeploymentText(m)) == [""] + DeploymentLines(m)
  {
    DocumentLines(DeploymentLines(m));
  }

  /* ---------- generate_configmap ---------- */

  /** A config key as the config map carries it: every `_` becomes `-`. */
  function HyphenKey(key: string): (r: string)
    ensures |r| == |key|
    ensures '_' !in r
    ensures '_' !in key ==> r == key
  {
    ReplaceCharMeaning(key, '_', '-');
    ReplaceChar(key, '_', '-')
  }

  /** The keys of a dictionary. */
  function Keys(d: KeyValues): set<string> {
    if d == [] then {} else {d[0].0} + Keys(d[1..])
  }

  /** No key occurs twice. */
  predicate DistinctKeys(d: KeyValues) {
    d == [] || (d[0].0 !in Keys(d[1..]) && DistinctKeys(d[1..]))
  }

  /** `d[key]`: the value stored under `key`, if any. */
  function Lookup(d: KeyValues, key: string): Option<Scalar> {
    if d == [] then None else if d[0].0 == key then Some(d[0].1) else Lookup(d[1..], key)
  }

  /** `d[key] = value`: an existing key keeps its place and takes the new value; a new key goes last. */
  function Put(d: KeyValues, key: string, value: Scalar): (r: KeyValues)
    ensures Keys(r) == Keys(d) + {key}
    ensures DistinctKeys(d) ==> DistinctKeys(r)
    ensures key !in Keys(d) ==> r == d + [(key, value)]
  {
    if d == [] then [(key, value)]
    else if d[0].0 == key then
      assert ([(key, value)] + d[1..])[1..] == d[1..];
      [(key, value)] + d[1..]
    else
      var r := [d[0]] + Put(d[1..], key, value);
      assert r[1..] == Put(d[1..], key, value);
      assert key !in Keys(d) ==> d == [d[0]] + d[1..] && d + [(key, value)] == [d[0]] + (d[1..] + [(key, value)]);
      r
  }

  lemma {:induction false} LookupPut(d: KeyValues, key: string, value: Scalar, k: string)
    ensures Lookup(Put(d, key, value), k) == if k == key then Some(value) else Lookup(d, k)
  {
    if d != [] && d[0].0 != key {
      LookupPut(d[1..], key, value, k);
      assert Put(d, key, value)[1..] == Put(d[1..], key, value);
    } else if d != [] {
      assert Put(d, key, value)[1..] == d[1..];
    }
  }

  /** `{key.replace('_', '-'): value for key, value in items}`. */
  function RewriteKeys(items: KeyValues): (r: KeyValues)
    ensures DistinctKeys(r)
    ensures (r == []) == (items == [])
    ensures forall k :: k in Keys(r) ==> '_' !in k
    decreases |items|
  {
    if items == [] then []
    else
      var last := items[|items| - 1];
      Put(RewriteKeys(items[..|items| - 1]), HyphenKey(last.0), last.1)
  }

  /** The value of the last item whose rewritten key is `key`: the one a dictionary comprehension keeps. */
  function LastValue(items: KeyValues, key: string): Option<Scalar>
    decreases |items|
  {
    if items == [] then None
    else if HyphenKey(items[|items| - 1].0) == key then Some(items[|items| - 1].1)
    else LastValue(items[..|items| - 1], key)
  }

  /** Under every rewritten key the config data holds the value of the LAST input key that rewrites to it. */
  lemma {:induction false} RewriteKeysLookup(items: KeyValues, key: string)
    ensures Lookup(RewriteKeys(items), key) == LastValue(items, key)
    decreases |items|
  {
    if items != [] {
      var last := items[|items| - 1];
      LookupPut(RewriteKeys(items[..|items| - 1]), HyphenKey(last.0), last.1, key);
      RewriteKeysLookup(items[..|items| - 1], key);
    }
  }

  /** The config data's keys are exactly the input keys rewritten. */
  lemma {:induction false} RewriteKeysKeys(items: KeyValues, k: string)
    ensures k in Keys(RewriteKeys(items)) <==> exists j :: 0 <= j < |items| && HyphenKey(items[j].0) == k
    decreases |items|
  {
    if items != [] {
      var init := items[..|items| - 1];
      RewriteKeysKeys(init, k);
      if exists j :: 0 <= j < |init| && HyphenKey(init[j].0) == k {
        var j :| 0 <= j < |init| && HyphenKey(init[j].0) == k;
        assert items[j] == init[j];
      }
      if exists j :: 0 <= j < |items| && HyphenKey(items[j].0) == k {
        var j :| 0 <= j < |items| && HyphenKey(items[j].0) == k;
        if j < |init| { assert init[j] == items[j]; }
      }
    }
  }

  predicate NoRewriteCollision(items: KeyValues) {
    forall i, j :: 0 <= i < j < |items| ==> HyphenKey(items[i].0) != HyphenKey(items[j].0)
  }

  /** The input item by item, each key rewritten, each value verbatim. */
  function RewriteEach(items: KeyValues): (r: KeyValues)
    ensures |r| == |items|
    ensures forall j :: 0 <= j < |items| ==> r[j] == (HyphenKey(items[j].0), items[j].1)
  {
    seq(|items|, j requires 0 <= j < |items| => (HyphenKey(items[j].0), items[j].1))
  }

  /** Dropping the last item keeps the rewritten keys collision-free. */
  lemma NoRewriteCollisionInit(items: KeyValues)
    requires items != [] && NoRewriteCollision(items)
    ensures NoRewriteCollision(items[..|items| - 1])
  {
    var init := items[..|items| - 1];
    forall i, j | 0 <= i < j < |init| ensures HyphenKey(init[i].0) != HyphenKey(init[j].0) {
      assert init[i] == items[i] && init[j] == items[j];
    }
  }

  /** Without collisions, the last item's rewritten key is not among those of the items before it. */
  lemma LastKeyFresh(items: KeyValues)
    requires items != [] && NoRewriteCollision(items)
    ensures HyphenKey(items[|items| - 1].0) !in Keys(RewriteKeys(items[..|items| - 1]))
  {
    var init := items[..|items| - 1];
    var k := HyphenKey(items[|items| - 1].0);
    forall j | 0 <= j < |init| ensures HyphenKey(init[j].0) != k {
      assert init[j] == items[j];
    }
    RewriteKeysKeys(init, k);
  }

  lemma RewriteEachSnoc(items: KeyValues)
    requires items != []
    ensures RewriteEach(items)
      == RewriteEach(items[..|items| - 1]) + [(HyphenKey(items[|items| - 1].0), items[|items| - 1].1)]
  {
    var init := items[..|items| - 1];
    assert forall j :: 0 <= j < |init| ==> init[j] == items[j];
  }

  /** Without colliding rewritten keys, the config data is the input item by item, in order, values verbatim. */
  lemma {:induction false} RewriteKeysInOrder(items: KeyValues)
    requires NoRewriteCollision(items)
    ensures RewriteKeys(items) == RewriteEach(items)
    decreases |items|
  {
    if items != [] {
      NoRewriteCollisionInit(items);
      RewriteKeysInOrder(items[..|items| - 1]);
      LastKeyFresh(items);
      RewriteEachSnoc(items);
    }
  }

  /** The ConfigMap document: object name `serviceName-env`, the given namespace, the rewritten data. */
  function GenerateConfigMap(serviceName: string, namespace: string, configValues: KeyValues): (r: ConfigMapManifest)
    ensures r.name == ConfigMapName(serviceName) && r.namespace == namespace
    ensures r.data == RewriteKeys(configValues)
  {
    ConfigMapManifest(RewriteKeys(configValues), serviceName + "-env", namespace)
  }

  /** `'\n'.join(f'  {line}' for line in lines)` spliced into the template: one empty line when there are none. */
  function IndentBlock(lines: seq<string>): seq<string> {
    if lines == [] then [""] else seq(|lines|, i requires 0 <= i < |lines| => "  " + lines[i])
  }

  /** The template lines around the dumped data (`dumped` stands for the lines of `yaml.dump(data)`). */
  function ConfigMapLines(m: ConfigMapManifest, dumped: seq<string>): seq<string> {
    ["apiVersion: v1", "data:"] + IndentBlock(dumped)
      + ["kind: ConfigMap", "metadata:", "  name: " + m.name, "  namespace: \"" + m.namespace + "\""]
  }

  /** The text written to `configmap.yml`. */
  function ConfigMapText(m: ConfigMapManifest, dumped: seq<string>): string {
    Document(ConfigMapLines(m, dumped))
  }

  /** The text of `configmap.yml` splits back into the template's lines when no field holds a line break. */
  lemma ConfigMapTextSplits(m: ConfigMapManifest, dumped: seq<string>)
    requires AllSingleLines(ConfigMapLines(m, dumped))
    ensures SplitLines(ConfigMapText(m, dumped)) == [""] + ConfigMapLines(m, dumped)
  {
    DocumentLines(ConfigMapLines(m, dumped));
  }

  /* ---------- how the three documents refer to each other ---------- */

  /**
   * Documents generated for one service agree: the Service selects the pods the
   * Deployment labels, forwards to the port the container exposes and shares the
   * config map's namespace; the Deployment's config-map reference is the name
   * the ConfigMap document gives itself.
   */
  lemma DocumentsAgree(name: string, namespace: string, replicaSet: Scalar, image: Scalar, port: Scalar,
                       containerPath: Scalar, serviceLocalPath: Scalar, configValues: KeyValues)
    ensures var svc := GenerateService(name, namespace, port);
      var dep := GenerateDeployment(name, replicaSet, image, port, containerPath, serviceLocalPath);
      var cm := GenerateConfigMap(name, namespace, configValues);
      && svc.selectorApp == dep.templateLabelApp == dep.matchLabelApp
      && svc.targetPort == dep.containerPort
      && dep.configMapRef == cm.name
      && svc.namespace == cm.namespace
  {
  }

  /**
   * The Deployment is placed in the raw service name while the Service and the
   * ConfigMap go to the namespace they are given; for the lowered name the two
   * agree exactly when the name has no upper-case letter.
   */
  lemma DeploymentNamespaceMatchesLowered(name: string, replicaSet: Scalar, image: Scalar, port: Scalar,
                                           containerPath: Scalar, serviceLocalPath: Scalar)
    ensures var dep := GenerateDeployment(name, replicaSet, image, port, containerPath, serviceLocalPath);
      (dep.namespace == GenerateService(name, Lower(name), port).namespace) == !HasUpper(name)
  {
    LowerFixedIff(name);
  }

  /** An interpolated integer port shows up in the service text as the same number on both port lines. */
  lemma ServiceTextPortLines(name: string, namespace: string, port: int)
    requires SingleLine(name) && SingleLine(namespace)
    ensures var lines := SplitLines(ServiceText(GenerateService(name, namespace, Int(port))));
      && "    - port: " + Show(Int(port)) in lines
      && "      targetPort: " + Show(Int(port)) in lines
  {
    var m := GenerateService(name, namespace, Int(port));
    ShowIntSingleLine(port);
    var ls := ServiceLines(m);
    assert ls[9] == "    - port: " + Show(Int(port));
    assert ls[10] == "      targetPort: " + Show(Int(port));
    assert AllSingleLines(ls);
    ServiceTextSplits(m);
    assert ([""] + ls)[10] == ls[9] && ([""] + ls)[11] == ls[10];
  }
}
