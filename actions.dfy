/**
 * The effects the generator and the command line have on the outside world,
 * recorded in order instead of performed: directory creation, file writes, and
 * the `kubectl` commands issued through the shell.
 */
module Actions {
  import opened Wrappers
  import opened Manifests

  /**
   * One effect. A `WriteFile` carries the document rather than its text: the
   * file's content is `ServiceText(doc.service)`, `DeploymentText(doc.deployment)`, or
   * `ConfigMapText(doc.configMap, dumped)` with `dumped` the lines `yaml.dump` gives.
   */
  datatype Action =
    | MakeDir(path: string)                    // os.makedirs(path)
    | CheckNamespace(namespace: string)        // kubectl get ns ... (its exit status is the answer)
    | CreateNamespace(namespace: string)       // kubectl create ns ...
    | WriteFile(path: string, doc: Manifest)   // open(path, "w").write(text of doc)
    | Apply(target: string)                    // kubectl apply -f ...
    | Delete(target: string)                   // kubectl delete -f ...

  predicate IsShellCommand(a: Action) {
    a.CheckNamespace? || a.CreateNamespace? || a.Apply? || a.Delete?
  }

  /** The shell command line an action runs; filesystem actions run none. */
  function CommandLine(a: Action): (r: Option<string>)
    ensures r.Some? == IsShellCommand(a)
  {
    match a
    case CheckNamespace(ns) => Some("kubectl get ns " + ns + " --no-headers --output=name 2>/dev/null")
    case CreateNamespace(ns) => Some("kubectl create ns " + ns)
    case Apply(t) => Some("kubectl apply -f " + t)
    case Delete(t) => Some("kubectl delete -f " + t)
    case MakeDir(_) => None
    case WriteFile(_, _) => None
  }

  /** Distinct shell actions run distinct command lines: the commands issued determine the actions. */
  lemma CommandLineInjective(a: Action, b: Action)
    requires IsShellCommand(a) && CommandLine(a) == CommandLine(b)
    ensures a == b
  {
    var ca := CommandLine(a).value;
    var cb := CommandLine(b).value;
    assert IsShellCommand(b);
    assert ca[8] == cb[8];
    match a
    case CheckNamespace(ns) =>
      var n := |ca| - |" --no-headers --output=name 2>/dev/null"|;
      assert ca[15..n] == ns;
      assert cb[15..n] == b.namespace;
    case CreateNamespace(ns) =>
      assert ca[18..] == ns && cb[18..] == b.namespace;
    case Apply(t) =>
      assert ca[17..] == t && cb[17..] == b.target;
    case Delete(t) =>
      assert ca[18..] == t && cb[18..] == b.target;
  }

  /** How many times `a` occurs in a trace. */
  function Count(acts: seq<Action>, a: Action): nat {
    if acts == [] then 0 else (if acts[0] == a then 1 else 0) + Count(acts[1..], a)
  }

  lemma {:induction false} CountAppend(xs: seq<Action>, ys: seq<Action>, a: Action)
    ensures Count(xs + ys, a) == Count(xs, a) + Count(ys, a)
  {
    if xs != [] {
      assert (xs + ys)[1..] == xs[1..] + ys;
      CountAppend(xs[1..], ys, a);
    } else {
      assert xs + ys == ys;
    }
  }

  lemma CountAbsent(xs: seq<Action>, a: Action)
    requires a !in xs
    ensures Count(xs, a) == 0
  {
  }
}
