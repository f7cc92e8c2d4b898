# FireKubeX generator — a Dafny model of `start.py`

`start.py` turns the `service` section of a YAML file into Kubernetes
manifests. For each service record, in order, it:

- skips the record when it is incomplete, outside core mode;
- fills in defaults;
- creates the service's output directory if the directory listing taken before the loop lacks it;
- makes sure a namespace named after the service exists;
- writes `configmap.yml` (only when the record has config values), `service.yaml` and `deployment.yml` into that directory.

The main block picks a replica override from `--dev`/`--prod`. It then generates either from `core.yaml`
(core mode, which checks no fields) or from `config.yaml`. Only in the latter case does it run
`kubectl apply` for `--start` (one service, or `all`) and `kubectl delete` for `--stop`.

The model records every external effect as an `Action`, in the order the
script performs it, instead of performing it:

- `MakeDir`;
- `CheckNamespace`, the `kubectl get ns` query;
- `CreateNamespace`;
- `WriteFile`, carrying the document written;
- `Apply` and `Delete`.

The namespace query is an oracle parameter (`NamespaceOracle`). It receives the actions issued so far, so a
namespace created for an earlier record may be reported present later. The directory listing is a
`set<string>` parameter.

Modules, leaf first:

- `Wrappers`: `Option`.
- `Scalars`: YAML scalars and how an f-string renders them (Python `str()`).
- `Strings`: `str.lower()`, single-character `str.replace`, and the line structure of a rendered document.
- `Manifests`: the Service, Deployment and ConfigMap documents, their text, and the config-map key rewrite
  `{key.replace('_', '-'): value ...}` as an insertion-ordered dictionary.
- `Actions`: the effect trace and the shell command line of each `kubectl` action.
- `Generation`: `parse_yaml`. `Run` states the loop as a function of the records. `ParseYaml` and
  `ProcessRecord` perform it step by step and are proved equal to `Run`. The lemmas state what the trace
  contains.
- `Cli`: the main block (`SelectReplicaOverride`, `StartAll`, `RunScript`).

Behaviours of the script the model keeps as written:

- The namespace is `name.lower()`, the lowered service `name`.
- The replica override is the global `--dev` flag, which wins over `--prod`.
- The Deployment's `namespace` is the raw name, not the lowered one. `DeploymentNamespaceMatchesLowered`
  proves the two agree exactly when the name has no upper-case letter.
- `envFrom` always names `name-env`, even when no config map is written (`EnvFromWithoutConfigMap`).
- The directory snapshot is never updated inside the loop. Two processed records with the same new name
  each get a `MakeDir` (`RunMakeDirCount`). The real `os.makedirs` would raise on the second one.
- `--start`/`--stop` are read only outside core mode.
- `--start all` looks up `["service"]` directly. A config without that key therefore ends the run
  (`MissingServiceKey`) before `--stop`, although generation itself treats a missing key as no services.

## Model

| member | source | states |
|---|---|---|
| `Scalars.Show` | start.py:45-65 | definition: how an f-string renders a YAML scalar, Python `str()`: a string verbatim, an integer in decimal, `True`/`False`, `None` |
| `Scalars.IntToText` | start.py:80-81 | definition: Python `str()` of an integer (the port and replica count interpolated at lines 45, 55 and 80-81), a `-` for a negative number followed by the decimal digits of its magnitude |
| `Scalars.NatToDecimal` | start.py:80-81 | an interpolated natural number is a non-empty string of decimal digits, with a leading `0` only for zero |
| `Scalars.DecimalRoundTrip` | start.py:80-81 | reading back the digits of an interpolated natural number gives that number |
| `Scalars.ShowIntReadsBack` | start.py:55 | an interpolated integer (port, replica count) is `-` and digits for a negative number, digits otherwise, and reads back to the same integer |
| `Scalars.ShowIntSingleLine` | start.py:80-81 | an interpolated integer never contains a line break |
| `Strings.LowerChar` | start.py:139 | lowering maps `A`..`Z` to `a`..`z` and leaves every other character unchanged |
| `Strings.Lower` | start.py:139 | `name.lower()` keeps the length and lowers each character in place |
| `Strings.LowerIsLower` | start.py:139 | a lowered name has no upper-case letter, and lowering is idempotent |
| `Strings.LowerFixedIff` | start.py:139 | lowering leaves a name unchanged exactly when it has no upper-case letter |
| `Strings.ReplaceChar` | start.py:90 | `key.replace('_', '-')` keeps the length and changes exactly the `_` characters |
| `Strings.ReplaceCharMeaning` | start.py:90 | after the replacement no `_` is left, and a key without `_` comes back unchanged |
| `Strings.SplitJoin` | start.py:35-66 | the lines of a joined text are the joined lines, when none of them holds a line break |
| `Strings.Document` | start.py:35-36 | definition: the layout of a triple-quoted f-string document (opening at lines 35, 70 and 96), a line break after the opening quotes and then each line ended by a line break |
| `Strings.DocumentLines` | start.py:35-66 | a document laid out as the triple-quoted f-strings do it splits into an empty first line followed by the template lines |
| `Manifests.GenerateService` | start.py:69-87 | the Service uses the service name as object name, label and selector, the given namespace, the port as both `port` and `targetPort`, protocol TCP and type NodePort |
| `Manifests.ConfigMapName` | start.py:58 | definition: `{service_name}-env`, the config-map reference of the Deployment and, at line 102, the ConfigMap's own name |
| `Manifests.VolumeName` | start.py:60-63 | definition: `{service_name}-volume`, the name in both `volumeMounts` and `volumes` |
| `Manifests.ServiceLines` | start.py:70-86 | definition: the Service template's lines, each slot filled from the document |
| `Manifests.ServiceText` | start.py:70-86 | definition: the text of `service.yaml`, an empty first line and then the template lines, each ended by a line break |
| `Manifests.ServiceTextSplits` | start.py:70-86 | the text of `service.yaml` splits back into the Service template's lines when no field holds a line break |
| `Manifests.GenerateDeployment` | start.py:34-67 | the Deployment uses the name as object name, as namespace (not lowered), as match label, pod label and container name. It carries the replica value, image, container port, mount path and host path. It mounts the volume `name-volume` that it declares, and takes its environment from the config map `name-env` |
| `Manifests.DeploymentLines` | start.py:35-66 | definition: the Deployment template's lines, each slot filled from the document |
| `Manifests.DeploymentText` | start.py:35-66 | definition: the text of `deployment.yml`, an empty first line and then the template lines, each ended by a line break |
| `Manifests.DeploymentTextSplits` | start.py:35-66 | the text of `deployment.yml` splits back into the Deployment template's lines when no field holds a line break |
| `Manifests.HyphenKey` | start.py:90 | a rewritten config key has the same length and no `_`; a key without `_` is unchanged |
| `Manifests.Put` | start.py:90 | assigning a dictionary entry adds exactly that key, keeps the keys distinct, and appends a new key at the end |
| `Manifests.Lookup` | start.py:90 | definition: the dictionary lookup `d[key]`, the value stored under `key` or none |
| `Manifests.LookupPut` | start.py:90 | after assigning `key`, looking up `key` gives the new value and every other key gives its old value |
| `Manifests.RewriteKeys` | start.py:90 | the rewritten config data has distinct keys, none containing `_`, and is empty exactly when the input is |
| `Manifests.RewriteKeysLookup` | start.py:90 | under each rewritten key the data holds the value of the last input key that rewrites to it (a later key wins a collision) |
| `Manifests.RewriteKeysKeys` | start.py:90 | a key is in the rewritten data exactly when some input key rewrites to it |
| `Manifests.RewriteEach` | start.py:90 | the item-by-item rewrite: same length, the i-th key rewritten, the i-th value verbatim |
| `Manifests.RewriteKeysInOrder` | start.py:90 | without collisions, the rewritten data is the input in order, keys rewritten and values verbatim |
| `Manifests.GenerateConfigMap` | start.py:89-105 | the ConfigMap is named `name-env`, lives in the given namespace and carries the rewritten data |
| `Manifests.IndentBlock` | start.py:94 | definition: each line of the dump indented by two spaces; a dump without lines leaves one empty line in the template |
| `Manifests.ConfigMapLines` | start.py:96-104 | definition: the ConfigMap template's lines around the indented dump, each slot filled from the document |
| `Manifests.ConfigMapText` | start.py:96-104 | definition: the text of `configmap.yml`, an empty first line and then the template lines, each ended by a line break |
| `Manifests.ConfigMapTextSplits` | start.py:92-104 | the text of `configmap.yml` splits back into the template's lines around the indented dump when no field holds a line break |
| `Manifests.DocumentsAgree` | start.py:39-102 | for one service, the Service selects the pods the Deployment labels and targets the container's port. The Deployment's config-map reference is the ConfigMap's own name. The Service and the ConfigMap share a namespace |
| `Manifests.DeploymentNamespaceMatchesLowered` | start.py:40 | the Deployment's namespace equals the Service's lowered namespace exactly when the name has no upper-case letter |
| `Manifests.ServiceTextPortLines` | start.py:80-81 | for an integer port, the service text has both the `- port: P` and the `targetPort: P` line with the same number |
| `Actions.CommandLine` | start.py:142-148 | the shell actions, and only they, run a command line: `kubectl get ns` and `kubectl create ns` as at lines 142 and 147; `kubectl apply -f` and `kubectl delete -f` as at start.py:20 and start.py:28 |
| `Actions.CommandLineInjective` | start.py:142-148 | distinct shell actions run distinct command lines |
| `Generation.ServicesOf` | start.py:109 | definition: the `service` section, or no services when the key is absent |
| `Generation.NameOf` | start.py:120 | definition: `service_info.get("name", "")` |
| `Generation.FieldOr` | start.py:119-124 | definition: `service_info.get(field, "")` for a scalar field |
| `Generation.HasMandatoryFields` | start.py:113-115 | definition: the record has each of `image`, `name`, `port`, `ContainerPath` and `ServiceLocalPath` |
| `Generation.Processed` | start.py:113-117 | definition: a record is processed in core mode, or outside it when it has every mandatory field; otherwise it is skipped |
| `Generation.MakeDirs` | start.py:127-128 | definition: a `MakeDir` of the name when the directory snapshot lacks it, nothing otherwise |
| `Generation.Probe` | start.py:139-144 | definition: the trace up to and including the namespace query of `name.lower()`, which the query's answer is given |
| `Generation.NamespaceMissing` | start.py:143-145 | definition: the oracle reports the lowered name absent, the `CalledProcessError` branch |
| `Generation.Creates` | start.py:145-149 | definition: a `CreateNamespace` of the lowered name when the query reports it missing, nothing otherwise |
| `Generation.ConfigMapWrite` | start.py:163-166 | definition: writing the ConfigMap for the name, the lowered namespace and the config values to `name/configmap.yml` |
| `Generation.ServiceWrite` | start.py:168-171 | definition: writing the Service for the name, the lowered namespace and the port to `name/service.yaml` |
| `Generation.DeploymentWrite` | start.py:173-177 | definition: writing the Deployment for the name, the replica value, image, port and paths to `name/deployment.yml` |
| `Generation.Writes` | start.py:161-177 | definition: the config-map write when the config values are non-empty, then the service and deployment writes |
| `Generation.ReplicaValue` | start.py:130-133 | the replica count is the override when there is one, otherwise the `ReplicaSet` field, otherwise `""` |
| `Generation.RecordActions` | start.py:113-177 | definition: nothing for a skipped record; otherwise the `MakeDir` when the snapshot lacks the name, the namespace query, the create when the query reports the namespace missing, and the writes |
| `Generation.Run` | start.py:112-177 | definition: the trace of the loop, each record's actions after those of the records before it, its namespace query answered on the trace so far |
| `Generation.ParseYaml` | start.py:107-177 | the loop over the `service` section (empty when the key is absent) issues exactly the trace `Run` defines |
| `Generation.ProcessRecord` | start.py:119-177 | one unskipped record appends exactly its record actions to the trace so far, its namespace query being answered on the trace up to that query |
| `Generation.SkippedRecordIsSilent` | start.py:113-117 | a record yields no action exactly when it is outside core mode and lacks one of `image`, `name`, `port`, `ContainerPath`, `ServiceLocalPath` |
| `Generation.RecordMakeDirs` | start.py:127-128 | a processed record issues one `MakeDir` of its name exactly when the snapshot lacks that name, and none otherwise |
| `Generation.RecordNamespaceActions` | start.py:139-153 | a processed record queries its lowered name exactly once, and creates that namespace once when the query reports it missing, never otherwise |
| `Generation.RecordWrites` | start.py:161-177 | a processed record writes `service.yaml` and `deployment.yml`, and `configmap.yml` exactly when it has config values, each under `name/`, and no other file |
| `Generation.RecordDocuments` | start.py:162-177 | the Service and ConfigMap written go to the lowered name, the Deployment to the raw name. The Service uses the port twice. The Deployment carries the replica value, refers to the ConfigMap's name and mounts its own volume. The ConfigMap carries the rewritten config values |
| `Generation.EnvFromWithoutConfigMap` | start.py:162-177 | without config values no `configmap.yml` is written, yet the Deployment written still refers to `name-env` |
| `Generation.RunMakeDirCount` | start.py:110-128 | across the run a name in the snapshot is never created, and any other name is created once per processed record carrying it (the real script's second `os.makedirs` of a name raises `FileExistsError` and ends the run; see Left out) |
| `Generation.RunNamespaceCounts` | start.py:139-153 | across the run each namespace is queried once per processed record lowering to it, and never created more often than queried |
| `Generation.RunCreatesFollowChecks` | start.py:142-149 | every namespace creation comes immediately after the query for that same namespace |
| `Generation.RunPrefix` | start.py:112 | the trace after the first k records is a prefix of the whole trace |
| `Generation.RunContinuesPastEveryRecord` | start.py:112-117 | each record's own actions (none for a skipped one) follow those of the records before it, so the loop continues after a skip |
| `Generation.RunOnlyFromProcessed` | start.py:112-177 | every action of the run belongs to a processed record |
| `Generation.RunAppliesNothing` | start.py:179-182 | the generation loop only creates directories, queries and creates namespaces and writes files; it applies and deletes nothing |
| `Generation.CoreWritesEveryRecord` | start.py:113-124 | in core mode every record, complete or not, is queried for its namespace and gets its service and deployment written (the real script stops at `os.makedirs("")` for a record without `name`; see Left out) |
| `Cli.Given` | start.py:213 | definition: Python truthiness of an optional string flag (`--start`, and `--stop` at line 224): present and non-empty |
| `Cli.SelectReplicaOverride` | start.py:197-201 | the override is `1` exactly when `--dev` is given, whatever `--prod` says, and none otherwise |
| `Cli.StartService` | start.py:18-22 | starting a service runs `kubectl apply -f <name>` |
| `Cli.StopService` | start.py:25-30 | stopping a service runs `kubectl delete -f <name>` |
| `Cli.StartAll` | start.py:214-218 | `--start all` issues one apply per service key, in key order, and nothing else |
| `Cli.StartActions` | start.py:213-221 | no `--start`: no apply. A named start: exactly one apply of that name. `all`: one apply per key in order |
| `Cli.StopActions` | start.py:224-225 | `--stop` issues exactly one delete of the given name, and nothing without it |
| `Cli.RunScript` | start.py:196-225 | core mode generates from the core section with no override and nothing else. Otherwise it generates with the `--dev` override, then the start applies, then the stop delete. `--start all` without a `service` key ends after generation |

## Left out

- Reading and writing files, `os.listdir`, `os.makedirs`: they are recorded as actions and parameters. Their failures are not modelled, including `os.makedirs("")` for a core record without `name` and `os.makedirs` on a name created earlier in the same run.
- `yaml.safe_load`: the input is the already loaded `service` section, `None` when the key is absent. Not modelled: a key present with a null value, a null record, YAML floats or dates, and sequence or mapping values in record fields or config values (the f-string would render Python's repr of them, `yaml.dump` would nest them). An empty YAML file is not modelled either: `parsed_data` is then `None` and line 109 raises `AttributeError`.
- `yaml.dump`: the config-map data is kept as the rewritten key/value sequence. `ConfigMapText` takes the dump's lines as a parameter.
- `subprocess.check_output` and `os.system`: the namespace query is an oracle. Exit codes, kubectl's own behaviour and a failing `kubectl create ns` are out of scope.
- A non-string `name` (Python raises `TypeError` at `os.makedirs`), a `configmaps` value that is not a mapping, and non-string config keys: the record type does not admit them.
- Strings.Lower: lowers ASCII letters only, while Python's `str.lower` also lowers other Unicode letters.
- Strings.LowerChar: maps only `A`..`Z` and leaves every other character unchanged, while Python also lowers other Unicode letters (`'Ä'.lower()` is `'ä'`).
- `print` messages and `argparse` wiring: the flags arrive as an `Args` value. `--start all` reads `config.yaml` a second time; the model assumes the same section both times.
- Secrets, autoscaler documents and dependency-ordered start (`depends_on`, grace sleep): `start.py` has none of them.
- The exact whitespace of the documents is transcribed but not proved to be well-formed YAML.
