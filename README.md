# Docktapus reconciliation core in Dafny

Docktapus (`dtop`) is a command-line tool that runs a project from two
docker-compose definitions, a production one and a development one. It tags
every container, network and volume it creates with `dtop.*` labels. It then
reads those labels back from `docker ps` to learn what runs, and in which
environment. This project models the deterministic part of the tool and
proves properties of that model:

- how labels are written into a definition and read back from Docker's
  `Labels` column;
- which prod and dev services `up` starts, and in what order;
- pre-creating a definition's networks and volumes and rewriting them as
  external;
- the checks and the stop-then-start sequence of `swap`;
- the teardown done by `down`;
- the grouping and ordering done by `ls`.

The `docker` CLI becomes a class, `Docker.Runtime`, which holds:

- the containers, networks and volumes;
- a log of every call made to it;
- the set of calls that fail (`refused`).

Each command is a module-level method that takes a `Docker.Runtime` and
issues its calls through the runtime's methods. Each such method is proved
equal to a function of the old state (`SwapRun`, `DownRun`, `LsRun`, `Ensured`, ...),
and lemmas prove what the tool promises about those functions.

Modules, one per source file or shared concern:

- `Wrappers`: Option and Result.
- `Text`: the Python `str` operations used: `split`, `strip`, `startswith`,
  `split('=', 1)`, and code-point order with a sort by key.
- `Labels`: the label keys and `_get_label`. The copies in swap.py and ls.py
  are identical and share one model.
- `Compose`: the compose definition.
  - `services` is an insertion-ordered dict of services. A service's
    `labels` is absent, a mapping, or a list of `k=v` items.
  - `networks` and `volumes` are insertion-ordered dicts of resource
    configs.
  - Every other top-level key is an opaque YAML tree.
- `Docker`: containers, resources, label filters, calls, and the `Runtime`
  class.
- `UpCommand`: `_inject_labels`, `_compose_up`'s command line, the dev/prod
  selection, and `up`.
- `ComposeUtils`: `ensure_networks`, `ensure_volumes`, `prepare_compose`,
  `cleanup_networks` and `cleanup_volumes`.
- `SwapCommand`: `_get_service_env`, `_stop_service_containers` and `swap`.
- `DownCommand`: `_get_containers_by_project` and `down`.
- `LsCommand`: `_get_containers`, the grouping, and the sorted listing of
  `ls`.

Decisions about the model:

- Docker's label filters are read with the same parse as `_get_label`:
  - `label=k` selects a container that has a part `k=...`;
  - `label=k=v` also requires the first such value to equal `v`.
- A refused call is logged and changes nothing.
- `docker rm` of containers removes the listed ones that are stopped. It
  reports failure if any of them is still running.
- Interactive `typer.confirm` answers are boolean inputs. The project name
  is an input: the working directory's name, which the source uses as a
  default, is read before the modelled code.
- Where a source call has `check=True`, a failure stops the command. The
  model gives this as an error result where the source raises
  `CalledProcessError`.
- The docstring of `down` speaks of the "running containers" of the project.
  The code lists with `-a`, so it takes stopped containers too. The model
  follows the code.

## Model

One row per member that models the source. Members that only guide the
prover have none: `Docker.LogAppend` (associativity of appends to the call
log), `Text.DistinctMultiset` and `Text.MultisetDistinct` (helpers of
`Text.SortDistinctNames`) and `UpCommand.StripLeadingBlank` (a helper of
`UpCommand.ResolveDevBlanks`).

| member | source | states |
|---|---|---|
| Text.IsSpace | src/docktapus/commands/swap.py:16 | the characters `str.isspace()` accepts, the set `strip()` removes; its use is stated by `TrimLeftSpec`, `TrimRightSpec` and `StripSpec` |
| Text.TrimLeft | src/docktapus/commands/swap.py:16 | `lstrip()`, the left half of `strip()`: the leading run of whitespace removed; its meaning is `TrimLeftSpec` |
| Text.TrimRight | src/docktapus/commands/swap.py:16 | `rstrip()`, the right half of `strip()`: the trailing run of whitespace removed; its meaning is `TrimRightSpec` |
| Text.StartsWith | src/docktapus/commands/swap.py:16 | `s.startswith(prefix)`: the prefix is no longer than `s` and equals its first characters; its use is stated by `Labels.EntryNamesKey` |
| Text.Strip | src/docktapus/commands/swap.py:16 | `str.strip()`: the left, then the right, run of `str.isspace()` characters removed |
| Text.LexLe | src/docktapus/commands/ls.py:78 | the code-point order Python uses to compare strings: a prefix comes first, otherwise the first differing character decides |
| Text.SortBy | src/docktapus/commands/ls.py:83 | `sorted(xs, key=...)` as an insertion sort by key; its meaning is `SortBySpec` |
| Text.TrimLeftSpec | src/docktapus/commands/swap.py:16 | trimming the left end drops exactly a prefix of whitespace and leaves a string that is empty or starts with non-whitespace |
| Text.TrimRightSpec | src/docktapus/commands/swap.py:16 | trimming the right end drops exactly a suffix of whitespace and leaves a string that is empty or ends with non-whitespace |
| Text.StripSpec | src/docktapus/commands/swap.py:16 | `strip()` returns the contiguous middle of the input: everything before it and after it is whitespace, and it neither starts nor ends with whitespace |
| Text.StripChars | src/docktapus/commands/swap.py:16 | every character of a stripped string occurs in the input |
| Text.StripClean | src/docktapus/commands/up.py:113 | stripping a string with no whitespace at either end returns it unchanged |
| Text.Split | src/docktapus/commands/swap.py:15 | `split(',')` returns at least one part, and no part contains the separator |
| Text.JoinSplit | src/docktapus/commands/swap.py:15 | joining the parts of a split with the separator gives back the original string |
| Text.SplitWithoutSep | src/docktapus/commands/up.py:113 | a string without the separator splits into itself alone |
| Text.SplitAtSep | src/docktapus/commands/up.py:113 | splitting `a + sep + b`, with no separator in `a`, gives `a` followed by the parts of `b` |
| Text.SplitJoin | src/docktapus/commands/up.py:113 | splitting the join of separator-free parts gives back those parts |
| Text.BeforeFirst | src/docktapus/commands/up.py:20 | `s.split(c, 1)[0]`: the text before the first `c`, or all of `s` without one; its meaning is `SplitFirst` and `FirstOf` |
| Text.AfterFirst | src/docktapus/commands/swap.py:17 | `s.split(c, 1)[1]`: the text after the first `c`, further `c`s included; also used at up.py:20; its meaning is `SplitFirst` and `FirstOf` |
| Text.SplitFirst | src/docktapus/commands/swap.py:17 | `split('=', 1)` cuts at the first `=`: the text before it, the `=` and the text after rebuild the input, and the first piece has no `=` |
| Text.FirstOf | src/docktapus/commands/swap.py:17 | for `a + '=' + b` with no `=` in `a`, the pieces are exactly `a` and `b`, so `b` may itself contain `=` |
| Text.LexLeTotal | src/docktapus/commands/ls.py:78 | the code-point string order used by `sorted` is total |
| Text.LexLeTransitive | src/docktapus/commands/ls.py:78 | that order is transitive |
| Text.LexLeAntisymmetric | src/docktapus/commands/ls.py:78 | that order is antisymmetric |
| Text.InsertMultiset | src/docktapus/commands/ls.py:83 | inserting an element into a sorted sequence adds exactly that element |
| Text.InsertSorted | src/docktapus/commands/ls.py:83 | inserting into a sequence sorted by key keeps it sorted |
| Text.SortBySpec | src/docktapus/commands/ls.py:83 | `sorted(..., key=...)` returns a permutation of its input that is sorted by the key |
| Text.SortDistinctNames | src/docktapus/commands/ls.py:78 | sorting distinct names gives strictly ascending names, the same members and the same length |
| Labels.NamesKey | src/docktapus/commands/swap.py:16 | `part.strip().startswith(f"{key}=")`: the stripped part begins with the key and `=`; its meaning is `EntryNamesKey` |
| Labels.FirstValue | src/docktapus/commands/swap.py:15-18 | the loop of `_get_label` over the parts: the text after the first `=` of the first stripped part starting with `key=`, else `""` |
| Labels.LabelOf | src/docktapus/commands/swap.py:13-18 | `_get_label(labels, key)`: `FirstValue` over the comma-separated parts; its meaning is stated by `LabelOfFirstMatch`, `LabelOfAbsent`, `ValueAfterKey` and `LabelOfRender` |
| Labels.GetLabel | src/docktapus/commands/swap.py:13-18 | the early-return loop over the comma-separated parts returns the value `_get_label` is specified to return |
| Labels.FirstValueAt | src/docktapus/commands/swap.py:15-17 | when part `i` is the first part that, once stripped, starts with `key=`, the result is the text after the first `=` of that stripped part |
| Labels.FirstValueNone | src/docktapus/commands/swap.py:18 | when no part starts with `key=`, the result is `""` |
| Labels.LabelOfFirstMatch | src/docktapus/commands/swap.py:13-18 | the value read from a `Labels` string is the text after the first `=` of its first matching part |
| Labels.LabelOfAbsent | src/docktapus/commands/ls.py:33-38 | a key no part carries reads as `""` |
| Labels.ValueAfterKey | src/docktapus/commands/swap.py:17 | for a part matching `key=`, with no `=` in the key, the value is everything after `key=`, including any further `=` |
| Labels.EntryNamesKey | src/docktapus/commands/swap.py:16 | an entry `k=v` (with no `=` in `k` or the key) starts with `key=` exactly when `k` is the key |
| Labels.LabelOfRender | src/docktapus/commands/swap.py:13-18 | reading key `k` back from a rendered `k1=v1,k2=v2,...` string gives the value of the first entry named `k`, when no entry holds commas or has whitespace at the outer ends |
| Labels.LabelOfNonEmpty | src/docktapus/commands/swap.py:13-18 | a non-empty value is only read for a key that some part carries |
| Labels.HasLabel | src/docktapus/commands/ls.py:10 | the presence filter `label=dtop.project`: some comma-separated part of the `Labels` string names the key; its use is stated by `Docker.ListedSpec` and `LsCommand.GetContainersSpec` |
| Docker.Selects | src/docktapus/commands/swap.py:27 | a `label=k` filter selects a container carrying a part `k=...`; `label=k=v` also needs the value read for `k` to be `v` |
| Docker.ProjectFilter | src/docktapus/commands/swap.py:27 | the filter `label=dtop.project=<project>` used by `_get_service_env`, `_stop_service_containers` (swap.py:52) and `_get_containers_by_project` (down.py:17); its meaning is `ListedSpec` |
| Docker.Listed | src/docktapus/commands/swap.py:23-32 | what `docker ps --filter` lists, in the runtime's order, only running containers without `-a`; its meaning is `ListedSpec` |
| Docker.StopRemove | src/docktapus/commands/swap.py:68-69 | `docker stop ids`, then `docker rm ids` only if the stop succeeded: the calls, the containers after them, and whether both succeeded |
| Docker.ListedSpec | src/docktapus/commands/swap.py:23-32 | `docker ps --filter` lists exactly the containers the filter selects, stopped ones only with `-a` |
| Docker.ListedDistinct | src/docktapus/commands/down.py:11-23 | a listing of containers with distinct IDs has distinct IDs |
| Docker.Owned | src/docktapus/commands/compose_utils.py:101-109 | the names listed for a project are exactly those of the resources labelled with it, without repeats when the names are distinct |
| Docker.Without | src/docktapus/commands/compose_utils.py:111 | removing a resource by name keeps exactly the others |
| Docker.Stopped | src/docktapus/commands/down.py:82 | `docker stop ids`: every container keeps its place, its ID and every column but the running flag; afterwards a container runs exactly when it ran before and its ID was not named; with `StoppedNotRunning` and `StoppedThenRemoved` |
| Docker.Removed | src/docktapus/commands/down.py:85 | `docker rm ids` deletes exactly the stopped containers with those IDs |
| Docker.StoppedNotRunning | src/docktapus/commands/down.py:82 | after the stop, no container with one of the IDs runs |
| Docker.StoppedThenRemoved | src/docktapus/commands/down.py:82-85 | stopping then removing the IDs leaves exactly the containers with other IDs |
| Docker.StopRemoveEffect | src/docktapus/commands/swap.py:67-69 | stop then remove never touches a container with another ID, and when both calls succeed it leaves exactly those containers |
| Docker.StopAndRemove | src/docktapus/commands/swap.py:68-69 | issues `stop`, then `rm` only if the stop succeeded, each with `check=True` |
| Docker.Runtime.Ps | src/docktapus/commands/ls.py:14-25 | one logged listing call, returning the containers the filter selects |
| Docker.Runtime.Inspect | src/docktapus/commands/compose_utils.py:7-12 | one logged `inspect`, answering whether a resource of that name exists |
| Docker.Runtime.Create | src/docktapus/commands/compose_utils.py:47-53 | one logged `create`. It succeeds exactly when it is not refused and the name is free, and then adds a resource labelled with the project; the other pool is unchanged |
| Docker.Runtime.ListResources | src/docktapus/commands/compose_utils.py:101-108 | one logged `ls --filter label=dtop.project=...`, returning the project's resource names |
| Docker.Runtime.Rm | src/docktapus/commands/compose_utils.py:111 | one logged `rm`. It succeeds exactly when it is not refused and the resource exists, and then removes it |
| Docker.Runtime.Stop | src/docktapus/commands/down.py:82 | one logged `docker stop`. When it is not refused, the containers with those IDs stop |
| Docker.Runtime.Remove | src/docktapus/commands/down.py:85 | one logged `docker rm`. It reports success exactly when it is not refused and none of the containers runs |
| Docker.Runtime.Up | src/docktapus/commands/up.py:39 | one logged `docker compose up` carrying the definition and the argument list |
| Compose.ServiceNames | src/docktapus/commands/up.py:105-106 | `list((compose.get("services") or {}).keys())`: the service names in declaration order, `[]` without a `services` key; also at swap.py:127-128; a null `services` is under "## Left out"; its use is stated by `UpCommand.Up`, `UpCommand.InjectedShape`, `SwapCommand.SwapRejectsEarly` and `SwapCommand.SwapTarget` |
| UpCommand.ItemKey | src/docktapus/commands/up.py:20 | the first piece of `label.split("=", 1)`: the text before the first `=`; its meaning is `Text.SplitFirst` and `Text.FirstOf` |
| UpCommand.ItemValue | src/docktapus/commands/up.py:20 | the second piece of `label.split("=", 1)`: everything after the first `=`, further `=` included; its meaning is `Text.SplitFirst` and `Text.FirstOf` |
| UpCommand.ListToMap | src/docktapus/commands/up.py:20 | `dict(label.split("=", 1) for label in labels)`: each item adds its key and value, a later key overwriting an earlier one; an item without `=` is the error |
| UpCommand.Normalize | src/docktapus/commands/up.py:17-20 | the labels of a service as a map: none, the map itself, or the converted list |
| UpCommand.InjectService | src/docktapus/commands/up.py:17-23 | one iteration of `_inject_labels`: the normalised labels with `dtop.env` and `dtop.project` set, the other fields kept |
| UpCommand.InjectUpTo | src/docktapus/commands/up.py:16-23 | the services after the loop has handled the first `n` of them, or the first conversion error |
| UpCommand.Injected | src/docktapus/commands/up.py:13-24 | `_inject_labels(compose, env, project)` on a copy of the definition; its meaning is `InjectedOk` and `InjectedShape` |
| UpCommand.ComposeUpArgs | src/docktapus/commands/up.py:33-37 | the command of `_compose_up`: `docker compose -f <file> up -d`, `--build` inserted before the last element, then the services; its layout is `ComposeUpArgsLayout` |
| UpCommand.IsAllKeyword | src/docktapus/commands/up.py:110 | `s.upper() == "ALL"` for the stripped `--dev` value, as a three-letter ASCII match in any case; its use is stated by `ResolveDevSpec` |
| UpCommand.Requested | src/docktapus/commands/up.py:113 | `[s.strip() for s in parts if s.strip()]` |
| UpCommand.ResolveDev | src/docktapus/commands/up.py:109-115 | `dev_to_start`: `[]` for an absent or empty `--dev`, all dev names for `ALL`, otherwise the requested names; its meaning is `ResolveDevSpec` |
| UpCommand.ProdToStart | src/docktapus/commands/up.py:118 | `[s for s in prod_names if s not in dev_to_start]`; its meaning is `ProdToStartSpec` |
| UpCommand.LaunchCall | src/docktapus/commands/up.py:127-134 | the `compose up` call of one environment: the labelled definition and the command line, or the label item that failed to convert |
| UpCommand.ListToMapOk | src/docktapus/commands/up.py:19-20 | list-form labels convert exactly when every item has an `=`. Otherwise the error is the first item without one |
| UpCommand.ListToMapKeys | src/docktapus/commands/up.py:20 | the converted keys are exactly the parts before the first `=` of the items |
| UpCommand.ListToMapLastWins | src/docktapus/commands/up.py:20 | each key maps to the text after the first `=` of its last item, so a later duplicate wins |
| UpCommand.InjectServiceSpec | src/docktapus/commands/up.py:16-23 | the labels become a map with `dtop.env` and `dtop.project` set, overwriting earlier values. Every other label and every other service field is kept. Injection fails only when the list form cannot convert |
| UpCommand.InjectUpToOk | src/docktapus/commands/up.py:16-23 | the loop over the first `n` services gets through them exactly when each one injects |
| UpCommand.InjectUpToValues | src/docktapus/commands/up.py:16-23 | after `n` steps, the first `n` services are injected and the rest are as they were |
| UpCommand.InjectUpToStops | src/docktapus/commands/up.py:19-20 | the first service whose labels fail to convert is the loop's error |
| UpCommand.InjectLabels | src/docktapus/commands/up.py:13-24 | the loop over a copy of the services computes the injected definition, leaving its argument unchanged |
| UpCommand.InjectedOk | src/docktapus/commands/up.py:16-23 | injection succeeds exactly when every service's labels convert |
| UpCommand.InjectedShape | src/docktapus/commands/up.py:15-23 | the injected definition has the same service names in the same order. Networks, volumes and every other top-level key are unchanged, and each service is its injected form |
| UpCommand.ComposeUpArgsLayout | src/docktapus/commands/up.py:33-37 | the command is `docker compose -f <file> up [--build] -d <services...>`, with `--build` right before `-d` and the services last |
| UpCommand.ParseComposeUpArgs | src/docktapus/commands/up.py:33-37 | the file, the services and the build flag can be read back from the command line |
| UpCommand.Launch | src/docktapus/commands/up.py:27-41 | exactly one `compose up` call with that command line, failing exactly when the runtime refuses it |
| UpCommand.RequestedMembers | src/docktapus/commands/up.py:113 | the requested names are exactly the non-empty stripped comma-separated parts |
| UpCommand.ResolveDevSpec | src/docktapus/commands/up.py:109-115 | `--dev` resolves to `[]` when absent or empty, and to all dev names in order for `ALL` in any case. Otherwise it resolves to the trimmed non-empty names, each free of commas and of outer whitespace; their order and repeats follow the request (`ResolveDevParts`, `RequestedConcat`, `RequestedOne`) |
| UpCommand.RequestedConcat | src/docktapus/commands/up.py:113 | the names read from parts `a + b` are those of `a` followed by those of `b`: request order and repeats are kept |
| UpCommand.RequestedOne | src/docktapus/commands/up.py:113 | one part gives its stripped text, or nothing when that is empty |
| UpCommand.ResolveDevParts | src/docktapus/commands/up.py:109-113 | an explicit `--dev` value, written as any comma-free parts (blanks and empty parts included), starts the names read from those parts, which `RequestedConcat` and `RequestedOne` fix in order |
| UpCommand.ResolveDevBlanks | src/docktapus/commands/up.py:109-113 | `--dev " x, y"`, with a blank before each name, starts exactly `[x, y]` in that order |
| UpCommand.RequestedClean | src/docktapus/commands/up.py:113 | names that are already trimmed and non-empty are kept as they are, in order |
| UpCommand.ResolveDevExplicit | src/docktapus/commands/up.py:109-113 | a comma-joined list of clean names (not `ALL`) resolves to that list in request order, unchecked against the dev definition |
| UpCommand.ProdToStartSpec | src/docktapus/commands/up.py:118 | prod services to start are exactly the prod names not requested as dev, in prod declaration order |
| UpCommand.Up | src/docktapus/commands/up.py:105-134 | prod is launched, labelled `prod`, before dev, labelled `dev`. A step with nothing to start makes no call, and a failing step ends the command before the next one |
| UpCommand.ShopExample | src/docktapus/commands/up.py:117-118 | with prod `api`, `db` and `--dev api`, prod starts only `db` and dev starts `api` |
| ComposeUtils.Physical | src/docktapus/commands/compose_utils.py:38-41 | the Docker name of an entry: its `name` when the config is a mapping with a non-empty `name`, else the logical key |
| ComposeUtils.ExternalRef | src/docktapus/commands/compose_utils.py:55 | the entry `{"name": physical, "external": True}` with nothing else; its use is stated by `RewriteUpToAt`, `PhysicalOfRewrite` and `RewriteIdempotent` |
| ComposeUtils.Rewrite | src/docktapus/commands/compose_utils.py:55 | every entry replaced by `{name: physical, external: true}`, the logical keys kept in order |
| ComposeUtils.StepFails | src/docktapus/commands/compose_utils.py:43-53 | the loop body fails exactly when the name is missing and its `create` (with `check=True`) is refused; its use is stated by `EnsureEntry` and `EnsureStops` |
| ComposeUtils.StepPool | src/docktapus/commands/compose_utils.py:43-53 | the resources after the loop body: one new resource owned by the project exactly when the name was missing and its create succeeded; its meaning is `EnsureGrows`, `StepCovers` and `CreatedAt` |
| ComposeUtils.StepCalls | src/docktapus/commands/compose_utils.py:43-53 | the calls of the loop body: an inspect, then a create labelled `dtop.project=<project>` only when the name is missing; its meaning is `EnsureCreatesOnlyMissing` and `EnsureCreatesAllMissing` |
| ComposeUtils.EnsureStep | src/docktapus/commands/compose_utils.py:43-53 | one iteration for a physical name: inspect, create labelled with the project when missing; nothing once an earlier create has failed |
| ComposeUtils.EnsureUpTo | src/docktapus/commands/compose_utils.py:37-53 | the pool, calls and first failure after the loop has handled the first `n` entries |
| ComposeUtils.RmCalls | src/docktapus/commands/compose_utils.py:110-111 | one `rm` call per listed name, in listing order |
| ComposeUtils.RmStep | src/docktapus/commands/compose_utils.py:111 | one `rm` without `check=True`: the resource goes unless the call is refused, and a refusal does not end the loop; its meaning is `RmAllSpec` |
| ComposeUtils.RmAll | src/docktapus/commands/compose_utils.py:110-111 | the pool after trying to remove each name in turn; a refused removal leaves the resource and the loop goes on; its meaning is `RmAllSpec` |
| ComposeUtils.Ensured | src/docktapus/commands/compose_utils.py:23-57 | a successful reconciliation changes only the reconciled section: services, the other section and every other key are kept, and the result is well formed |
| ComposeUtils.EnsureStops | src/docktapus/commands/compose_utils.py:53 | once a create has failed (`check=True`), the later entries are not looked at |
| ComposeUtils.EnsureEntry | src/docktapus/commands/compose_utils.py:43-53 | one entry issues an inspect, then a create labelled with the project only if the name is missing. It fails exactly when that create is refused |
| ComposeUtils.RewriteUpToAll | src/docktapus/commands/compose_utils.py:55 | once the loop has rewritten every entry, the section is the rewritten section |
| ComposeUtils.RewriteUpToAt | src/docktapus/commands/compose_utils.py:37-55 | after `n` steps, the first `n` entries are `{name: physical, external: true}` and the rest are as they were |
| ComposeUtils.RewriteUpToKeys | src/docktapus/commands/compose_utils.py:55 | rewriting keeps the logical keys |
| ComposeUtils.EnsureAt | src/docktapus/commands/compose_utils.py:37-55 | one loop iteration: the physical name, its inspect/create calls and the rewritten entry |
| ComposeUtils.EnsureLoop | src/docktapus/commands/compose_utils.py:37-55 | the loop over all entries makes the calls and pool changes of the reconciliation specification, and on success yields every entry rewritten |
| ComposeUtils.EnsureResources | src/docktapus/commands/compose_utils.py:32-57 | the reconciliation equals its specification. An absent or empty section is returned unchanged with no runtime call |
| ComposeUtils.EnsureNetworks | src/docktapus/commands/compose_utils.py:23-57 | `ensure_networks` reconciles networks and leaves volumes alone |
| ComposeUtils.EnsureVolumes | src/docktapus/commands/compose_utils.py:60-89 | `ensure_volumes` reconciles volumes and leaves networks alone |
| ComposeUtils.PrepareCompose | src/docktapus/commands/compose_utils.py:92-96 | networks are reconciled first. Volumes are reconciled on the result only if that succeeded |
| ComposeUtils.RewriteValid | src/docktapus/commands/compose_utils.py:55 | the rewritten section is still a well-formed ordered dict |
| ComposeUtils.EnsureGrows | src/docktapus/commands/compose_utils.py:43-53 | existing resources are left as they are. Every resource added is labelled with the project and was missing before |
| ComposeUtils.EnsureCovers | src/docktapus/commands/compose_utils.py:43-55 | after a successful reconciliation, every physical name exists |
| ComposeUtils.StepCovers | src/docktapus/commands/compose_utils.py:43-53 | a successful step keeps the existing names and makes its own name exist |
| ComposeUtils.EnsureNamesFrom | src/docktapus/commands/compose_utils.py:43-53 | every name present afterwards was there before or is a physical name of the section |
| ComposeUtils.EnsureCreatesOnlyMissing | src/docktapus/commands/compose_utils.py:43-53 | every call is an inspect, or a create labelled with the project for a name that was missing and belongs to the section |
| ComposeUtils.EnsureCreatesAllMissing | src/docktapus/commands/compose_utils.py:43-53 | on success, a create is issued for every physical name that was missing |
| ComposeUtils.Origin | src/docktapus/commands/compose_utils.py:43-53 | a name that appeared during reconciliation is the physical name of some entry |
| ComposeUtils.CreatedAt | src/docktapus/commands/compose_utils.py:43-53 | on success, a missing physical name at a given entry got its create call |
| ComposeUtils.EnsureNothingMissing | src/docktapus/commands/compose_utils.py:43-44 | when every physical name exists, the pool is unchanged, only inspects are issued and nothing fails |
| ComposeUtils.PhysicalOfRewrite | src/docktapus/commands/compose_utils.py:38-41 | a rewritten entry names the same physical resource |
| ComposeUtils.InspectionsOfRewrite | src/docktapus/commands/compose_utils.py:43 | a rewritten section inspects the same names |
| ComposeUtils.RewriteIdempotent | src/docktapus/commands/compose_utils.py:55 | rewriting twice is rewriting once |
| ComposeUtils.EnsuredIdempotent | src/docktapus/commands/compose_utils.py:38-55 | after a success, a second run on the input or on its own output issues only inspects, changes no resource and gives the same definition |
| ComposeUtils.InspectionsAreInspections | src/docktapus/commands/compose_utils.py:43 | the calls of a run with nothing missing are all inspects |
| ComposeUtils.NonEmptyLines | src/docktapus/commands/compose_utils.py:109 | the kept lines are exactly the non-empty ones |
| ComposeUtils.RmAllNext | src/docktapus/commands/compose_utils.py:110-111 | each iteration issues one `rm` and applies it to the pool |
| ComposeUtils.RmAllSpec | src/docktapus/commands/compose_utils.py:110-111 | after the removals, exactly the resources not named, or whose `rm` was refused, remain. A failure does not stop the rest |
| ComposeUtils.RmAt | src/docktapus/commands/compose_utils.py:110-111 | one loop iteration issues the next `rm`, whatever the earlier ones returned |
| ComposeUtils.Cleanup | src/docktapus/commands/compose_utils.py:99-111 | one listing call, then one `rm` per listed name in order, with the pool as the removals leave it |
| ComposeUtils.CleanupEffect | src/docktapus/commands/compose_utils.py:99-111 | after cleanup, a resource remains exactly when it does not carry the project label, has an empty name, or its removal was refused |
| ComposeUtils.CleanupNetworks | src/docktapus/commands/compose_utils.py:99-111 | `cleanup_networks` over networks only |
| ComposeUtils.CleanupVolumes | src/docktapus/commands/compose_utils.py:114-126 | `cleanup_volumes` over volumes only |
| SwapCommand.OfService | src/docktapus/commands/swap.py:38 | the test `_get_label(labels, "com.docker.compose.service") == service_name`, also at swap.py:64; its use is stated by `StopTargets` and `ServiceIdsSpec`, and through `Reports` by `EnvOfSpec` |
| SwapCommand.Reports | src/docktapus/commands/swap.py:38-41 | a container of the service whose `dtop.env` is non-empty, the one `_get_service_env` returns from; its meaning is `EnvOfSpec` and `SwapNotRunning` |
| SwapCommand.EnvOf | src/docktapus/commands/swap.py:33-42 | the search of `_get_service_env` over the listed containers: the first non-empty `dtop.env` of a container of the service, else `None`; its meaning is `EnvOfSpec` |
| SwapCommand.ServiceIds | src/docktapus/commands/swap.py:58-65 | the IDs collected by `_stop_service_containers`, in listing order; its meaning is `ServiceIdsSpec` |
| SwapCommand.StopService | src/docktapus/commands/swap.py:45-69 | `_stop_service_containers`: the `ps -a` listing, then stop and rm of the collected IDs only when there are any |
| SwapCommand.TargetDef | src/docktapus/commands/swap.py:140-151 | the definition of the target environment: the dev one for `dev`, the prod one otherwise |
| SwapCommand.LaunchStep | src/docktapus/commands/swap.py:162-169 | the `compose up` call for the one-service definition, labelled with the target, started with `[service]` |
| SwapCommand.SwapRun | src/docktapus/commands/swap.py:127-169 | `swap` after the definitions are loaded: the unknown-service check, the env query, the target checks, then stop and launch; its meaning is `SwapRejectsEarly`, `SwapNotRunning`, `SwapTarget` and `SwapLaunch` |
| SwapCommand.EnvOfSpec | src/docktapus/commands/swap.py:33-42 | the env is `None` exactly when no listed container of the service has a non-empty `dtop.env`. Otherwise it is that of the first such container, and matching containers with an empty env are skipped |
| SwapCommand.GetServiceEnv | src/docktapus/commands/swap.py:21-42 | one listing of the project's running containers, and the env its search loop returns |
| SwapCommand.ServiceIdsSpec | src/docktapus/commands/swap.py:58-65 | the collected IDs are exactly those of the containers whose service label is the name |
| SwapCommand.ServiceIdsConcat | src/docktapus/commands/swap.py:59-65 | collection follows listing order: the IDs of a concatenation are the concatenated IDs |
| SwapCommand.CollectIds | src/docktapus/commands/swap.py:58-65 | the append loop computes the collected IDs |
| SwapCommand.StopServiceContainers | src/docktapus/commands/swap.py:45-69 | one `ps -a` listing, then `stop` and `rm` of the collected IDs only when there are any |
| SwapCommand.StopTargets | src/docktapus/commands/swap.py:47-65 | the targets are the project's containers of that service, running or stopped and of either env |
| SwapCommand.StopServiceEffect | src/docktapus/commands/swap.py:58-69 | no other container is touched; on success exactly the targets are gone; no target means no stop or rm call |
| SwapCommand.Target | src/docktapus/commands/swap.py:140-151 | the target is `dev` exactly when the current env is `prod`, and `prod` for any other value |
| SwapCommand.Minimal | src/docktapus/commands/swap.py:162-167 | the one-service definition is well formed |
| SwapCommand.SwapPlan | src/docktapus/commands/swap.py:134-151 | a planned target always has a definition of the service |
| SwapCommand.SwapFrom | src/docktapus/commands/swap.py:155-169 | after the checks, the only outcomes are the target, a failed stop or a failed launch |
| SwapCommand.LaunchService | src/docktapus/commands/swap.py:168-169 | injects the target labels into the one-service definition and launches it with `[service]` |
| SwapCommand.StopAndLaunch | src/docktapus/commands/swap.py:155-169 | stopping, then starting, as its specification says |
| SwapCommand.Swap | src/docktapus/commands/swap.py:127-169 | the whole swap equals its specification |
| SwapCommand.SwapRejectsEarly | src/docktapus/commands/swap.py:130-151 | an unknown service is rejected, exactly then, before any call. Every check failure leaves the containers unchanged, having only listed running containers |
| SwapCommand.SwapNotRunning | src/docktapus/commands/swap.py:134-138 | the swap reports "not running" exactly when the service is known and no running container of the project reports an env for it |
| SwapCommand.SwapTarget | src/docktapus/commands/swap.py:140-151 | a swap goes to `dev` exactly when it started from `prod`, and only to an environment that defines the service. A missing definition is reported before any stop |
| SwapCommand.SwapFromLaunch | src/docktapus/commands/swap.py:157-169 | the launch comes strictly after the stop calls. It carries `[service]` and a definition with only that service and the target's other keys, and the service keeps its config with target labels. Exactly the stopped service's containers are gone |
| SwapCommand.SwapLaunch | src/docktapus/commands/swap.py:127-169 | a successful swap is one running listing followed by the stop-and-launch of the target definition, which defines the service |
| DownCommand.IdsOf | src/docktapus/commands/down.py:18-19 | the `--format {{.ID}}` column of a listing, one ID per container in listing order; its use is stated by `ProjectIdsSpec` |
| DownCommand.ProjectIds | src/docktapus/commands/down.py:9-24 | the non-empty `{{.ID}}` lines of `ps -a --filter label=dtop.project=<project>`; its meaning is `ProjectIdsSpec` |
| DownCommand.CleanupIf | src/docktapus/commands/down.py:96-98 | the listing and `rm` calls of a cleanup and the pool after it, or nothing when the cleanup is not done |
| DownCommand.Tidy | src/docktapus/commands/down.py:87-107 | the network and volume half of `down`: each flag or answer decides, the prompts asked and the summary; its meaning is `TidySpec` |
| DownCommand.DownRun | src/docktapus/commands/down.py:68-109 | `down` for a known project name: listing, stop, rm, then the cleanups; its meaning is `DownNothing`, `DownFailures`, `DownRemovesProject` and `DownDone` |
| DownCommand.ProjectIdsSpec | src/docktapus/commands/down.py:9-24 | the IDs are exactly the non-empty IDs of the project's containers in any state |
| DownCommand.GetContainersByProject | src/docktapus/commands/down.py:9-24 | one `ps -a` listing of the project, returning those IDs |
| DownCommand.CleanupIfEffect | src/docktapus/commands/down.py:96-98 | a declined cleanup keeps the pool. An accepted one removes the project's resources, except refused removals |
| DownCommand.CleanupOnRequest | src/docktapus/commands/down.py:90-98 | the prompt is asked exactly when the flag is unset, and the cleanup runs on the flag or a yes |
| DownCommand.TidyUp | src/docktapus/commands/down.py:87-107 | the network decision, then the volume decision, with their prompts and the summary |
| DownCommand.Down | src/docktapus/commands/down.py:68-109 | the whole teardown equals its specification |
| DownCommand.DownNothing | src/docktapus/commands/down.py:71-75 | `down` stops after the listing exactly when no project container has an ID, and then nothing changes |
| DownCommand.DownFailures | src/docktapus/commands/down.py:82-85 | a failed stop makes no removal, and a failed rm follows a stop. Neither prompts nor cleans up |
| DownCommand.DownRemovesProject | src/docktapus/commands/down.py:71-85 | after a complete `down`, exactly the containers outside the project (or without an ID) remain |
| DownCommand.TidySpec | src/docktapus/commands/down.py:87-107 | networks are cleaned on `--all`, `--remove-networks` or a yes, asking only when neither flag is set, and volumes likewise and independently; the network question comes first. The network cleanup's calls come before the volume one's. The summary is `Containers`, then `networks`, then `volumes`, each of the last two exactly once when its cleanup ran and absent otherwise |
| DownCommand.DownDone | src/docktapus/commands/down.py:82-109 | a complete `down` lists, stops and removes the project's containers, and only then does the cleanup half |
| LsCommand.ProjectOf | src/docktapus/commands/ls.py:71 | the group key of a container: its `dtop.project` label read by `_get_label` |
| LsCommand.Members | src/docktapus/commands/ls.py:69-72 | the elements with a given key, in listing order |
| LsCommand.RowOf | src/docktapus/commands/ls.py:84-94 | the columns of one container row, the env and service columns read by `_get_label` |
| LsCommand.ByName | src/docktapus/commands/ls.py:83 | the sort key `x.get("Names", "")`, a container's `Names` column; its use is stated by `SortedSectionsRows` and `LsListing` |
| LsCommand.SectionOf | src/docktapus/commands/ls.py:78-94 | one project section: the project and the rows of its group sorted by `Names` |
| LsCommand.Sections | src/docktapus/commands/ls.py:78-95 | one section per project of the given order |
| LsCommand.LsRun | src/docktapus/commands/ls.py:59-95 | `ls` on a listing: the "no containers" message (with the project when one was given), else the sections in sorted project order; its meaning is `LsEmpty` and `LsListing` |
| LsCommand.ListFilter | src/docktapus/commands/ls.py:10-12 | with a non-empty project name, an equality filter on `dtop.project`; otherwise a presence filter |
| LsCommand.GetContainers | src/docktapus/commands/ls.py:8-30 | one `ps -a` listing with that filter |
| LsCommand.GetContainersSpec | src/docktapus/commands/ls.py:10-25 | the listing holds exactly the containers that carry `dtop.project`, with the given value when a name is given |
| LsCommand.GroupBy | src/docktapus/commands/ls.py:69-72 | grouping yields an ordered dict without duplicate keys |
| LsCommand.AddTo | src/docktapus/commands/ls.py:72 | `setdefault(p, []).append(c)` keeps the dict well formed |
| LsCommand.GroupBySpec | src/docktapus/commands/ls.py:69-72 | the groups are exactly the projects seen. Each group holds that project's containers in listing order |
| LsCommand.MembersNone | src/docktapus/commands/ls.py:69-72 | a project no container has gets an empty group |
| LsCommand.MembersCount | src/docktapus/commands/ls.py:69-72 | every container is in exactly its project's group, as often as it was listed |
| LsCommand.Group | src/docktapus/commands/ls.py:69-72 | the grouping loop computes the grouping |
| LsCommand.RowOfSpec | src/docktapus/commands/ls.py:84-94 | a row shows the container's ID, name, image, status and ports. An absent env or service label shows as `""` |
| LsCommand.ReadRow | src/docktapus/commands/ls.py:84-94 | reads one row |
| LsCommand.PrintSection | src/docktapus/commands/ls.py:83-94 | the inner loop emits the project's rows sorted by name |
| LsCommand.PrintSections | src/docktapus/commands/ls.py:78-95 | the outer loop emits one section per project in the given order |
| LsCommand.Ls | src/docktapus/commands/ls.py:59-95 | one listing call, and the output of its specification |
| LsCommand.SectionsNext | src/docktapus/commands/ls.py:78 | each iteration appends the next project's section |
| LsCommand.SectionsAt | src/docktapus/commands/ls.py:78 | section `i` is the section of project `i` of the order |
| LsCommand.SectionsProjects | src/docktapus/commands/ls.py:78 | the sections' projects are the order |
| LsCommand.LsEmpty | src/docktapus/commands/ls.py:59-66 | "no containers" is reported exactly when the filter selects none, naming the project only when one was given |
| LsCommand.SectionRows | src/docktapus/commands/ls.py:83 | a section's rows are its group's containers, permuted into name order |
| LsCommand.SortedSectionsOrder | src/docktapus/commands/ls.py:78 | the sections come in strictly ascending project order, and there is one per group |
| LsCommand.SortedSectionsRows | src/docktapus/commands/ls.py:83 | every section's rows are a name-sorted permutation of its group |
| LsCommand.LsListing | src/docktapus/commands/ls.py:68-95 | the listing has one section per project label seen, in strictly ascending order. Each section holds a name-sorted permutation of that project's listed containers |

## Left out

- A failing listing call. Only the `stop`, `rm` and `compose up` calls
  (and the resource `create`/`rm`) can fail in the model. In the source a
  failed `docker ps` or `network ls`/`volume ls` (no `check=True`) gives an
  empty output and so an empty listing, and a failed `inspect` reads as
  "missing"; the model's listings and inspects always answer from the
  runtime's state.
- Running `docker`: process calls, exit codes, output capture, and the text
  of `docker ps` / `ls` output. The `Runtime` class with its call log stands
  in for them.
- JSON decoding of `docker ps --format '{{json .}}'` lines. Containers arrive
  decoded, so the skipping of empty lines before decoding (ls.py:26-30,
  swap.py:33-35, swap.py:59-61) is not modelled. Missing JSON keys
  (`get("Labels", "")`, `get("ID")`) are not modelled either: every record
  has every field.
- YAML loading and dumping of the compose files and `~/.dtop.yml`, and the
  temporary file of `_compose_up` (up.py:29-32, 40-41). The launch is logged
  with the definition itself in place of the file's contents; the file path
  is a parameter. `UpCommand.Up` passes the same path to both launches,
  where the source makes a fresh `mkstemp` file for each; the logged calls
  still differ by their definitions.
- Config loading and the project lookup in `~/.dtop.yml` (swap.py:99-125,
  up.py:76-103). Both definitions are inputs.
- The `Path.cwd()` default for the project name. The name is an input.
- Every `typer.echo` message and the column widths of `ls`. The `ls` output
  is the sequence of sections and rows; `down`'s prompts and summary are
  returned values.
- The interleaving of `typer.confirm` prompts with the runtime calls in
  `down`. The answers are inputs, and the prompts asked are returned as a
  sequence, not placed in the call log.
- What `docker compose up` does to the runtime (containers it creates). Only
  the call is logged.
- UpCommand.Up: does not model the effect of a `compose up` call on the
  containers, for the reason above.
- ComposeUtils.EnsureNetworks: the `--driver bridge` argument of
  `network create` is not part of the logged create call.
- ComposeUtils.CleanupNetworks: networks are listed and removed by name,
  where the source lists `{{.ID}}` and removes by ID. Names stand in for
  IDs because the model keeps only names.
- `_network_exists` / `_volume_exists` are the runtime's `Inspect` query.
- A service, a `labels:` entry, or the `services:` section of a definition
  whose YAML value is null. `_inject_labels` would raise on these; the model
  has no null service or label set, and an absent `services` key stands for
  both absence and null.
- Docker's own label filters. Docker matches `label=k` and `label=k=v`
  against each container's label map; the model reads them with the
  `_get_label` parse of the comma-joined `Labels` string (`Labels.HasLabel`,
  `Docker.Selects`). The two differ when a label value itself holds a comma:
  a container labelled `note=a,dtop.project=x` has no `dtop.project` label
  for Docker, but the model's filters select it as a container of project
  `x`.
- UpCommand.ResolveDevSpec: the `upper() == "ALL"` test is modelled as an
  ASCII case-insensitive match of a three-character string. Non-ASCII
  characters whose upper case is `A` or `L` are not considered.
- LsCommand.SortedSectionsRows: the stability of Python's sort (equal
  names keep listing order) is not stated. Only sortedness and permutation
  are.
- The order of the top-level keys of the minimal definition in `swap`
  (`services` moves to the end in the source). The model's definition has
  structured fields, not an ordered key list, at the top level.
- A failing `check=True` call raises a traceback in the source. In the
  model it is an error outcome that stops the command.
- `init`, `update` and `main` (registry persistence and command wiring) are
  not part of this model.
