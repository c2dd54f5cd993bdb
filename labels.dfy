/** The label vocabulary the tool writes and reads back, and the reader of
    Docker's `Labels` column (`k1=v1,k2=v2,...`). The two copies of
    `_get_label` in swap.py and ls.py are the same code; this is their one
    model. */
module Labels {
  import opened Text

  /** Set by Docker Compose on every container it starts. */
  const ServiceKey := "com.docker.compose.service"
  /** `prod` or `dev`, injected at launch. */
  const EnvKey := "dtop.env"
  /** The owning project, injected at launch and put on created resources. */
  const ProjectKey := "dtop.project"

  /** A comma-separated part of a `Labels` string that, stripped, starts with
      `key=`. */
  predicate NamesKey(part: string, key: string) {
    StartsWith(Strip(part), key + "=")
  }

  function FirstValue(parts: seq<string>, key: string): string
    decreases |parts|
  {
    if parts == [] then ""
    else if NamesKey(parts[0], key) then AfterFirst(Strip(parts[0]), '=')
    else FirstValue(parts[1..], key)
  }

  /** What `_get_label(labels_str, key)` returns. */
  function LabelOf(labels: string, key: string): string {
    FirstValue(Split(labels, ','), key)
  }

  /** Some part of the string carries `key` (the `label=key` filter). */
  predicate HasLabel(labels: string, key: string) {
    var parts := Split(labels, ',');
    exists i :: 0 <= i < |parts| && NamesKey(parts[i], key)
  }

  /** `_get_label` (swap.py and ls.py): the parts of `labels` are scanned in
      order and the first one naming `key` gives the answer. */
  method GetLabel(labels: string, key: string) returns (value: string)
    ensures value == LabelOf(labels, key)
  {
    var parts := Split(labels, ',');
    var i := 0;
    while i < |parts|
      invariant 0 <= i <= |parts|
      invariant FirstValue(parts[i..], key) == LabelOf(labels, key)
    {
      var part := Strip(parts[i]);
      if StartsWith(part, key + "=") {
        value := AfterFirst(part, '=');
        return;
      }
      assert parts[i..][1..] == parts[i + 1..];
      i := i + 1;
    }
    value := "";
  }

  lemma {:induction false} FirstValueAt(parts: seq<string>, key: string, i: nat)
    requires i < |parts| && NamesKey(parts[i], key)
    requires forall j :: 0 <= j < i ==> !NamesKey(parts[j], key)
    ensures FirstValue(parts, key) == AfterFirst(Strip(parts[i]), '=')
    decreases i
  {
    if i > 0 {
      assert !NamesKey(parts[0], key);
      assert forall j :: 0 <= j < i - 1 ==> parts[1..][j] == parts[j + 1];
      FirstValueAt(parts[1..], key, i - 1);
    }
  }

  lemma {:induction false} FirstValueNone(parts: seq<string>, key: string)
    requires forall j :: 0 <= j < |parts| ==> !NamesKey(parts[j], key)
    ensures FirstValue(parts, key) == ""
    decreases |parts|
  {
    if parts != [] { FirstValueNone(parts[1..], key); }
  }

  /** The value comes from the first part naming the key: the text after the
      first `=` of that part, stripped. */
  lemma LabelOfFirstMatch(labels: string, key: string, i: nat)
    requires i < |Split(labels, ',')| && NamesKey(Split(labels, ',')[i], key)
    requires forall j :: 0 <= j < i ==> !NamesKey(Split(labels, ',')[j], key)
    ensures LabelOf(labels, key) == AfterFirst(Strip(Split(labels, ',')[i]), '=')
  {
    FirstValueAt(Split(labels, ','), key, i);
  }

  /** No part names the key: the reader answers `""`. */
  lemma LabelOfAbsent(labels: string, key: string)
    requires !HasLabel(labels, key)
    ensures LabelOf(labels, key) == ""
  {
    FirstValueNone(Split(labels, ','), key);
  }

  /** For a key without `=`, the value is everything after `key=` in the
      stripped part, so it may itself contain `=`. */
  lemma ValueAfterKey(part: string, key: string)
    requires '=' !in key && NamesKey(part, key)
    ensures AfterFirst(Strip(part), '=') == Strip(part)[|key| + 1..]
  {
    var s := Strip(part);
    assert s == key + "=" + s[|key| + 1..];
    FirstOf(key, '=', s[|key| + 1..]);
  }

  /** One `k=v` entry of Docker's `Labels` column. */
  function Entry(k: string, v: string): string { k + "=" + v }

  /** How the runtime prints a label list. */
  function Render(entries: seq<(string, string)>): string {
    Join(seq(|entries|, i requires 0 <= i < |entries| => Entry(entries[i].0, entries[i].1)), ',')
  }

  /** An entry the comma-separated format carries unambiguously. */
  predicate CleanEntry(k: string, v: string) {
    && ',' !in k && ',' !in v && '=' !in k
    && (k == [] || !IsSpace(k[0]))
    && (v == [] || !IsSpace(v[|v| - 1]))
  }

  lemma EntryNamesKey(k: string, v: string, key: string)
    requires '=' !in k && '=' !in key
    ensures StartsWith(Entry(k, v), key + "=") <==> k == key
  {
    var e := Entry(k, v);
    if StartsWith(e, key + "=") {
      FirstOf(k, '=', v);
      assert e == key + "=" + e[|key| + 1..];
      FirstOf(key, '=', e[|key| + 1..]);
    }
  }

  /** Reading back what the runtime printed: the value of the first entry with
      that key. */
  lemma LabelOfRender(entries: seq<(string, string)>, i: nat)
    requires forall j :: 0 <= j < |entries| ==> CleanEntry(entries[j].0, entries[j].1)
    requires i < |entries|
    requires forall j :: 0 <= j < i ==> entries[j].0 != entries[i].0
    ensures LabelOf(Render(entries), entries[i].0) == entries[i].1
  {
    var parts := seq(|entries|, j requires 0 <= j < |entries| => Entry(entries[j].0, entries[j].1));
    var key := entries[i].0;
    forall j | 0 <= j < |parts| ensures ',' !in parts[j] && Strip(parts[j]) == parts[j] {
      var e := parts[j];
      assert e == entries[j].0 + "=" + entries[j].1;
      assert e[0] == if entries[j].0 == [] then '=' else entries[j].0[0];
      assert e[|e| - 1] == if entries[j].1 == [] then '=' else entries[j].1[|entries[j].1| - 1];
      StripClean(e);
    }
    SplitJoin(parts, ',');
    assert Split(Render(entries), ',') == parts;
    forall j | 0 <= j <= i ensures NamesKey(parts[j], key) <==> j == i {
      EntryNamesKey(entries[j].0, entries[j].1, key);
    }
    FirstValueAt(parts, key, i);
    FirstOf(key, '=', entries[i].1);
  }

  /** A non-empty answer means the key is there. */
  lemma LabelOfNonEmpty(labels: string, key: string)
    requires LabelOf(labels, key) != ""
    ensures HasLabel(labels, key)
  {
    if !HasLabel(labels, key) { LabelOfAbsent(labels, key); }
  }
}
