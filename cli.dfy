/**
 * The script's main block: choose the replica override from `--dev`/`--prod`,
 * generate from the core file or from the regular config, and only in the
 * latter case start and stop services with `kubectl`.
 */
module Cli {
  import opened Wrappers
  import opened Actions
  import opened Generation

  /** The command-line flags the main block reads. */
  datatype Args = Args(dev: bool, prod: bool, start: Option<string>, stop: Option<string>, core: bool)

  /** How a run ends: normally, or with the lookup of the `service` key failing for `--start all`. */
  datatype Outcome = Completed | MissingServiceKey

  /** An optional argument counts as given when it is present and not empty (Python truthiness). */
  predicate Given(arg: Option<string>) {
    arg.Some? && arg.value != ""
  }

  /** `replica_set_override`: `1` exactly when `--dev` is given, whatever `--prod` says; otherwise none. */
  method SelectReplicaOverride(dev: bool, prod: bool) returns (override: Option<int>)
    ensures (override == Some(1)) == dev
    ensures override.None? == !dev
  {
    override := None;
    if dev {
      override := Some(1);
    } else if prod {
      override := None;
    }
  }

  /** `start_service`: one `kubectl apply -f <name>`. */
  function StartService(name: string): (a: Action)
    ensures CommandLine(a) == Some("kubectl apply -f " + name)
  {
    Apply(name)
  }

  /** `stop_service`: one `kubectl delete -f <name>`. */
  function StopService(name: string): (a: Action)
    ensures CommandLine(a) == Some("kubectl delete -f " + name)
  {
    Delete(name)
  }

  /** `--start all`: one apply per service key, in the keys' order. */
  method StartAll(services: ServiceSet) returns (acts: seq<Action>)
    ensures |acts| == |services|
    ensures forall i :: 0 <= i < |services| ==> acts[i] == StartService(services[i].0)
  {
    acts := [];
    for i := 0 to |services|
      invariant |acts| == i
      invariant forall k :: 0 <= k < i ==> acts[k] == StartService(services[k].0)
    {
      acts := acts + [StartService(services[i].0)];
    }
  }

  /** The applies `--start` asks for, given the `service` section of the config. */
  function StartActions(start: Option<string>, services: ServiceSet): (r: seq<Action>)
    ensures !Given(start) ==> r == []
    ensures Given(start) && start.value != "all" ==> r == [StartService(start.value)]
    ensures Given(start) && start.value == "all" ==>
      |r| == |services| && forall i :: 0 <= i < |services| ==> r[i] == StartService(services[i].0)
  {
    if !Given(start) then []
    else if start.value == "all" then seq(|services|, i requires 0 <= i < |services| => StartService(services[i].0))
    else [StartService(start.value)]
  }

  /** The delete `--stop` asks for. */
  function StopActions(stop: Option<string>): (r: seq<Action>)
    ensures |r| == (if Given(stop) then 1 else 0)
    ensures Given(stop) ==> r[0] == StopService(stop.value)
  {
    if Given(stop) then [StopService(stop.value)] else []
  }

  /**
   * The main block. `config` and `core` are the `service` sections of
   * `config.yaml` and `core.yaml` (`None` when the file has no such key).
   * Core mode generates with no override and ignores `--start` and `--stop`;
   * otherwise generation uses the override, then `--start`, then `--stop`.
   */
  method RunScript(args: Args, config: Option<ServiceSet>, core: Option<ServiceSet>, dirs: set<string>,
                   nsExists: NamespaceOracle)
    returns (actions: seq<Action>, outcome: Outcome)
    ensures args.core ==> outcome == Completed && actions == Run(ServicesOf(core), Env(true, None, dirs, nsExists))
    ensures !args.core ==>
      var generated := Run(ServicesOf(config), Env(false, if args.dev then Some(1) else None, dirs, nsExists));
      if Given(args.start) && args.start.value == "all" && config.None? then
        outcome == MissingServiceKey && actions == generated
      else
        outcome == Completed && actions == generated + StartActions(args.start, ServicesOf(config)) + StopActions(args.stop)
  {
    var override := SelectReplicaOverride(args.dev, args.prod);
    outcome := Completed;
    if args.core {
      actions := ParseYaml(core, None, true, dirs, nsExists);
      return;
    }
    actions := ParseYaml(config, override, false, dirs, nsExists);
    ghost var generated := actions;
    var starts: seq<Action> := [];
    if Given(args.start) {
      if args.start.value == "all" {
        if config.None? {
          outcome := MissingServiceKey;
          return;
        }
        starts := StartAll(config.value);
      } else {
        starts := [StartService(args.start.value)];
      }
    }
    assert starts == StartActions(args.start, ServicesOf(config));
    actions := actions + starts;
    if Given(args.stop) {
      actions := actions + [StopService(args.stop.value)];
    }
    assert actions == generated + starts + StopActions(args.stop);
  }
}
