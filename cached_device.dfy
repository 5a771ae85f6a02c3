/** The cached device: the control descriptors of the selected device paired
    with one cached value each, built from the descriptors' defaults and edited
    in place by the per-frame apply pass. */
module CachedDevices {
  import opened Controls
  import opened Sync
  import opened Devices

  /** The cache a successful control query yields: the descriptors in the
      order the device reports them, each paired with its default value; no
      cache at all when the query fails. */
  function Built(query: Option<seq<Description>>): (r: Option<Cache>)
    ensures r.None? <==> query.None?
    ensures r.Some? ==> Paired(r.value) && r.value.ctrls == query.value
    ensures r.Some? ==> forall i :: 0 <= i < |r.value.vals| ==> r.value.vals[i] == query.value[i].default
  {
    match query
    case None => None
    case Some(ctrls) => Some(Cache(ctrls, seq(|ctrls|, i requires 0 <= i < |ctrls| => ctrls[i].default)))
  }

  class CachedDevice {
    const ctrls: seq<Description>
    var vals: seq<I64>

    ghost predicate Valid()
      reads this
    {
      |vals| == |ctrls|
    }

    function View(): Cache
      reads this
    {
      Cache(ctrls, vals)
    }

    constructor (ctrls: seq<Description>, vals: seq<I64>)
      requires |vals| == |ctrls|
      ensures Valid() && this.ctrls == ctrls && this.vals == vals
    {
      this.ctrls := ctrls;
      this.vals := vals;
    }

    /** Queries the device's controls and caches each one's default value; a
        failed query yields no cache at all. */
    static method Mk(d: Device) returns (r: Option<CachedDevice>)
      ensures r.Some? ==> fresh(r.value) && r.value.Valid()
      ensures r.None? <==> d.controls.None?
      ensures r.Some? ==> Built(d.controls) == Some(r.value.View())
    {
      if d.controls.None? {
        return None;
      }
      var ctrls := d.controls.value;
      var vals: seq<I64> := [];
      for i := 0 to |ctrls|
        invariant |vals| == i
        invariant forall k :: 0 <= k < i ==> vals[k] == ctrls[k].default
      {
        vals := vals + [ctrls[i].default];
      }
      assert Built(d.controls).value.vals == vals;
      var cd := new CachedDevice(ctrls, vals);
      r := Some(cd);
    }

    /** One step of the apply pass: shows the widget of control `i` with the
        operator's edit `e`, unless it is a class header, and writes it to
        `target` when its value changed or `force` is set. */
    method ApplyAt(i: nat, e: Option<Edit>, force: bool, target: Device)
      requires Valid() && i < |ctrls|
      requires ctrls[i].typ == Menu ==> ctrls[i].items.Some?
      requires WriteDue(ctrls[i], vals[i], EditedValue(ctrls[i], vals[i], e), force) ==> ctrls[i].id in target.readable
      modifies this, target
      ensures Valid()
      ensures vals == old(vals)[i := EditedValue(ctrls[i], old(vals)[i], e)]
      ensures target.attempts == old(target.attempts) + Due(ctrls[i], old(vals)[i], vals[i], force)
      ensures target.applied == old(target.applied) + Accepted(Due(ctrls[i], old(vals)[i], vals[i], force), target.refused)
    {
      var c := ctrls[i];
      if c.typ == CtrlClass {
        return;
      }
      var prior := vals[i];
      var v := EditedValue(c, prior, e);
      vals := vals[i := v];
      if v != prior || force {
        // success and failure are only logged
        var ok := target.SetControl(Write(c.id, v));
      }
    }

    /** One apply pass: shows each control's widget with the operator's edit,
        skipping class headers, and writes a control to `target` when its value
        changed or `force` is set. A rejected write does not end the pass. */
    method Apply(edits: map<nat, Edit>, force: bool, target: Device)
      requires Valid()
      requires PassSafe(Cache(ctrls, vals), edits, force, target.readable)
      modifies this, target
      ensures Valid()
      ensures vals == NewVals(ctrls, old(vals), edits)
      ensures target.attempts == old(target.attempts) + Attempts(ctrls, old(vals), vals, force, |ctrls|)
      ensures target.applied == old(target.applied) + Accepted(Attempts(ctrls, old(vals), vals, force, |ctrls|), target.refused)
    {
      ghost var before := vals;
      ghost var after := NewVals(ctrls, vals, edits);
      ghost var attempted := target.attempts;
      ghost var taken := target.applied;
      var i := 0;
      while i < |ctrls|
        invariant 0 <= i <= |ctrls|
        invariant vals == Shown(ctrls, before, edits, i)
        invariant target.attempts == attempted + Attempts(ctrls, before, after, force, i)
        invariant target.applied == taken + Accepted(Attempts(ctrls, before, after, force, i), target.refused)
      {
        ghost var ws := Attempts(ctrls, before, after, force, i);
        ghost var d := Due(ctrls[i], before[i], after[i], force);
        ShownUntouched(ctrls, before, edits, i);
        assert after[i] == EditedValue(ctrls[i], before[i], EditAt(edits, i));
        if WriteDue(ctrls[i], before[i], after[i], force) {
          DueWriteAttempted(ctrls, before, after, force, i);
        }
        ApplyAt(i, EditAt(edits, i), force, target);
        AcceptedAppend(ws, d, target.refused);
        AppendAssoc(attempted, ws, d);
        AppendAssoc(taken, Accepted(ws, target.refused), Accepted(d, target.refused));
        i := i + 1;
      }
      ShownAll(ctrls, before, edits);
    }
  }
}
