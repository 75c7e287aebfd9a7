/** The `resources` list edits `arkit8s.py` makes in a component's
    `kustomization.yaml`: `generate-load-simulators` adds the generated
    `load-simulators.yaml`, `cleanup-load-simulators` takes it out again.
    Reading and dumping the YAML is not part of this model. */
module Kustomization {
  import opened Wrappers
  import opened Seqs

  const SimulatorsEntry := "load-simulators.yaml"

  /** `data.get("resources", []) or []`: an absent or null list reads as empty. */
  function Listed(resources: Option<seq<string>>): seq<string> {
    if resources.Some? then resources.value else []
  }

  /** The list after `generate-load-simulators`: the entry is appended
      unless it is already there. */
  function WithSimulators(resources: Option<seq<string>>): (r: Option<seq<string>>)
    ensures SimulatorsEntry in Listed(r)
    ensures SimulatorsEntry in Listed(resources) ==> r == resources
    ensures SimulatorsEntry !in Listed(resources) ==> r == Some(Listed(resources) + [SimulatorsEntry])
  {
    if SimulatorsEntry in Listed(resources) then resources
    else Some(Listed(resources) + [SimulatorsEntry])
  }

  predicate IsOther(x: string) {
    x != SimulatorsEntry
  }

  /** The entries other than the generated manifest, in order. */
  function Others(xs: seq<string>): (r: seq<string>)
    ensures SimulatorsEntry !in r
    ensures forall x :: x in r <==> x in xs && x != SimulatorsEntry
  {
    Filter(xs, IsOther)
  }

  /** The list after `cleanup-load-simulators`: untouched when the entry is
      absent; otherwise every occurrence goes, and the key goes with the
      last entry. */
  function WithoutSimulators(resources: Option<seq<string>>): (r: Option<seq<string>>)
    ensures SimulatorsEntry !in Listed(r)
    ensures r.Some? ==> r.value != [] || r == resources
    ensures SimulatorsEntry !in Listed(resources) ==> r == resources
    ensures forall x :: x in Listed(r) <==> x in Listed(resources) && x != SimulatorsEntry
    ensures SimulatorsEntry in Listed(resources) ==>
      && (r.None? <==> forall x :: x in Listed(resources) ==> x == SimulatorsEntry)
      && (r.Some? ==> r.value == Others(Listed(resources)))
  {
    if SimulatorsEntry !in Listed(resources) then resources
    else
      var kept := Others(Listed(resources));
      assert kept != [] ==> kept[0] in kept;
      if kept == [] then None else Some(kept)
  }

  /** Adding twice is adding once. */
  lemma AddIdempotent(resources: Option<seq<string>>)
    ensures WithSimulators(WithSimulators(resources)) == WithSimulators(resources)
  {
  }

  /** Adding keeps every existing entry in place and appends the new one at
      most once. */
  lemma AddKeepsEntries(resources: Option<seq<string>>)
    ensures Listed(resources) <= Listed(WithSimulators(resources))
    ensures |Listed(WithSimulators(resources))| <= |Listed(resources)| + 1
  {
  }

  /** Removing twice is removing once. */
  lemma CleanupIdempotent(resources: Option<seq<string>>)
    ensures WithoutSimulators(WithoutSimulators(resources)) == WithoutSimulators(resources)
  {
  }

  /** Cleanup keeps exactly the other entries, in order. */
  lemma CleanupKeepsOthers(resources: Option<seq<string>>)
    ensures Listed(WithoutSimulators(resources)) == Others(Listed(resources))
  {
    if SimulatorsEntry !in Listed(resources) {
      FilterAll(Listed(resources), IsOther);
    }
  }

  /** Cleaning up after an add restores a list that had other entries, or
      a list that was absent. */
  lemma CleanupUndoesAdd(resources: Option<seq<string>>)
    requires SimulatorsEntry !in Listed(resources)
    requires resources.None? || resources.value != []
    ensures WithoutSimulators(WithSimulators(resources)) == resources
  {
    var xs := Listed(resources);
    FilterAppend(xs, [SimulatorsEntry], IsOther);
    assert forall i :: 0 <= i < |xs| ==> IsOther(xs[i]);
    FilterAll(xs, IsOther);
    assert Filter([SimulatorsEntry], IsOther) == [];
    assert Others(xs + [SimulatorsEntry]) == xs;
    assert WithSimulators(resources) == Some(xs + [SimulatorsEntry]);
  }

  /** The `data` mapping of one kustomization file, as far as the edits
      touch it. */
  class KustomizationFile {
    /** The `resources` key: `None` when absent or null. */
    var resources: Option<seq<string>>

    constructor(resources: Option<seq<string>>)
      ensures this.resources == resources
    {
      this.resources := resources;
    }

    /** The edit of `generate_load_simulators`; the file is rewritten only
        when the entry was missing. */
    method AddSimulators() returns (rewritten: bool)
      modifies this
      ensures resources == WithSimulators(old(resources))
      ensures rewritten <==> SimulatorsEntry !in Listed(old(resources))
    {
      var current := if resources.Some? then resources.value else [];
      if SimulatorsEntry !in current {
        resources := Some(current + [SimulatorsEntry]);
        return true;
      }
      return false;
    }

    /** The edit of `cleanup_load_simulators`: the filtering loop, then the
        key is set or dropped; the file is rewritten only when the entry
        was present. */
    method CleanupSimulators() returns (rewritten: bool)
      modifies this
      ensures resources == WithoutSimulators(old(resources))
      ensures rewritten <==> SimulatorsEntry in Listed(old(resources))
    {
      var current := if resources.Some? then resources.value else [];
      var kept: seq<string> := [];
      for k := 0 to |current|
        invariant resources == old(resources)
        invariant kept == Others(current[..k])
      {
        assert current[..k + 1] == current[..k] + [current[k]];
        FilterAppend(current[..k], [current[k]], IsOther);
        if current[k] != SimulatorsEntry {
          kept := kept + [current[k]];
        }
      }
      assert current[..|current|] == current;
      if SimulatorsEntry in current {
        resources := if kept != [] then Some(kept) else None;
        return true;
      }
      return false;
    }
  }
}
