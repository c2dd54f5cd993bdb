/** The parts of a docker-compose definition the commands look at. What the
    YAML loader returns is a tree of dicts, lists and scalars; the model keeps
    `services`, `networks` and `volumes` structured and every other key as an
    opaque tree. */
module Compose {
  import opened Wrappers

  /** An opaque YAML value. */
  datatype Yaml =
    | YNull
    | YBool(b: bool)
    | YInt(i: int)
    | YStr(s: string)
    | YList(items: seq<Yaml>)
    | YMap(entries: seq<(string, Yaml)>)

  /** A Python dict with string keys: its keys in insertion order, and the
      value of each. Assigning to an existing key keeps its place. */
  datatype Dict<V> = Dict(keys: seq<string>, vals: map<string, V>) {
    ghost predicate Valid() {
      && (forall i, j :: 0 <= i < j < |keys| ==> keys[i] != keys[j])
      && (forall k :: k in vals <==> k in keys)
    }
  }

  /** The `labels` entry of a service: absent, a mapping, or a list of
      `key=value` strings. */
  datatype LabelSpec =
    | NoLabels
    | LabelMap(m: map<string, string>)
    | LabelList(items: seq<string>)

  /** A service: its labels and every other field, opaque. */
  datatype Service = Service(labels: LabelSpec, fields: map<string, Yaml>)

  /** The entry of one logical network or volume: empty (`net:` with no body)
      or a mapping that may give a physical `name` and an `external` flag. */
  datatype ResourceConfig =
    | Bare
    | Config(name: Option<string>, external: Option<bool>, fields: map<string, Yaml>)

  /** A compose definition. `services == None` is a definition without a
      `services` key; `networks == None` (or `volumes`) is one whose key is
      absent or null. */
  datatype Definition = Definition(
    services: Option<Dict<Service>>,
    networks: Option<Dict<ResourceConfig>>,
    volumes: Option<Dict<ResourceConfig>>,
    other: map<string, Yaml>)
  {
    ghost predicate Valid() {
      && (services.Some? ==> services.value.Valid())
      && (networks.Some? ==> networks.value.Valid())
      && (volumes.Some? ==> volumes.value.Valid())
      && "services" !in other && "networks" !in other && "volumes" !in other
    }
  }

  /** `list((compose.get("services") or {}).keys())` */
  function ServiceNames(d: Definition): seq<string> {
    if d.services.Some? then d.services.value.keys else []
  }
}
