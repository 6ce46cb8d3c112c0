/**
 * The clone-once map of `run`: every thermostat's setpoint schedule is
 * replaced by a clone, and thermostats that share a schedule (by name) share
 * one clone. Clones are numbered in the order they are made, which is also
 * the order in which the hash later lists them for rewriting.
 */
module CloneMap {
  import opened Wrappers

  /** The schedule names in the order of their first appearance. */
  function Distinct(names: seq<Option<string>>): (r: seq<string>)
    decreases |names|
  {
    if names == [] then []
    else
      var n := |names| - 1;
      var prior := Distinct(names[..n]);
      if names[n].Some? && names[n].value !in prior then prior + [names[n].value] else prior
  }

  /** A name is listed exactly when some thermostat has a schedule of that name. */
  lemma {:induction false} DistinctMembers(names: seq<Option<string>>)
    ensures forall x :: x in Distinct(names) <==> Some(x) in names
    decreases |names|
  {
    if names != [] {
      var n := |names| - 1;
      DistinctMembers(names[..n]);
      assert names == names[..n] + [names[n]];
    }
  }

  /** No name is listed twice. */
  lemma {:induction false} DistinctOnce(names: seq<Option<string>>)
    ensures forall i, j :: 0 <= i < j < |Distinct(names)| ==> Distinct(names)[i] != Distinct(names)[j]
    decreases |names|
  {
    if names != [] {
      DistinctOnce(names[..|names| - 1]);
    }
  }

  /**
   * The loop over the thermostats of one kind. `names[i]` is the name of
   * thermostat `i`'s setpoint schedule, if it has one. `clones` maps a
   * schedule name to the number of its clone, `order` lists the cloned names
   * in the order the clones were made, and `hooked[i]` is the clone
   * thermostat `i` is hooked up to (none, with a warning, when it has no
   * schedule).
   */
  method CloneSchedules(names: seq<Option<string>>)
    returns (clones: map<string, nat>, order: seq<string>, hooked: seq<Option<nat>>)
    ensures order == Distinct(names)
    ensures forall x :: x in clones <==> x in order
    ensures forall k :: 0 <= k < |order| ==> order[k] in clones && clones[order[k]] == k
    ensures |hooked| == |names|
    ensures forall i :: 0 <= i < |names| && names[i].Some? ==> names[i].value in clones
    ensures forall i :: 0 <= i < |names| ==>
              hooked[i] == if names[i].None? then None else Some(clones[names[i].value])
    // thermostats share a clone exactly when they share a schedule name
    ensures forall i, j :: 0 <= i < |names| && 0 <= j < |names| && names[i].Some? && names[j].Some? ==>
              (hooked[i] == hooked[j] <==> names[i] == names[j])
  {
    clones, order, hooked := map[], [], [];
    for i := 0 to |names|
      invariant order == Distinct(names[..i])
      invariant forall x :: x in clones <==> x in order
      invariant forall k :: 0 <= k < |order| ==> order[k] in clones && clones[order[k]] == k
      invariant |hooked| == i
      invariant forall j :: 0 <= j < i && names[j].Some? ==> names[j].value in clones
      invariant forall j :: 0 <= j < i ==>
                  hooked[j] == if names[j].None? then None else Some(clones[names[j].value])
    {
      assert names[..i + 1][..i] == names[..i];
      DistinctMembers(names[..i]);
      match names[i]
      case None =>
        hooked := hooked + [None];
      case Some(name) =>
        if name in clones {
          hooked := hooked + [Some(clones[name])];
        } else {
          var id := |order|;
          DistinctOnce(names[..i]);
          // no earlier thermostat uses this name, so their clones keep their numbers
          assert forall j :: 0 <= j < i && names[j].Some? ==> names[j].value != name;
          clones := clones[name := id];
          order := order + [name];
          hooked := hooked + [Some(id)];
        }
    }
    assert names[..|names|] == names;
    SharedExactly(names, clones, order);
  }

  /** Numbering the names in their order of first appearance gives distinct names distinct numbers. */
  lemma SharedExactly(names: seq<Option<string>>, clones: map<string, nat>, order: seq<string>)
    requires order == Distinct(names)
    requires forall k :: 0 <= k < |order| ==> order[k] in clones && clones[order[k]] == k
    ensures forall i, j :: 0 <= i < |names| && 0 <= j < |names| && names[i].Some? && names[j].Some? ==>
              names[i].value in clones && names[j].value in clones &&
              (clones[names[i].value] == clones[names[j].value] <==> names[i] == names[j])
  {
    DistinctOnce(names);
    DistinctMembers(names);
    forall i, j | 0 <= i < |names| && 0 <= j < |names| && names[i].Some? && names[j].Some?
      ensures names[i].value in clones && names[j].value in clones
      ensures clones[names[i].value] == clones[names[j].value] <==> names[i] == names[j]
    {
      assert Some(names[i].value) in names && Some(names[j].value) in names;
      var p :| 0 <= p < |order| && order[p] == names[i].value;
      var q :| 0 <= q < |order| && order[q] == names[j].value;
    }
  }
}
