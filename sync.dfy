/** The diff-and-apply pass over a cached device, as values: which cached
    values it leaves, which writes it attempts and which of those the device
    accepts, with the properties the pass promises. */
module Sync {
  import opened Controls

  /** The value view of a cached device: the descriptors and one cached value
      per descriptor, in the same order. */
  datatype Cache = Cache(ctrls: seq<Description>, vals: seq<I64>)

  /** The invariant of a cached device: the two sequences stay paired. */
  predicate Paired(c: Cache)
  {
    |c.vals| == |c.ctrls|
  }

  /** Booleans hold 0 or 1, the form the checkbox stores back. */
  predicate Normalized(ctrls: seq<Description>, vals: seq<I64>)
    requires |vals| == |ctrls|
  {
    forall i :: 0 <= i < |vals| && ctrls[i].typ == Boolean ==> vals[i] == 0 || vals[i] == 1
  }

  /** The operator's edit of control `i` this frame, if any. */
  function EditAt(edits: map<nat, Edit>, i: nat): Option<Edit>
  {
    if i in edits then Some(edits[i]) else None
  }

  /** The cached values after every widget has been shown with its edit. */
  function NewVals(ctrls: seq<Description>, vals: seq<I64>, edits: map<nat, Edit>): (r: seq<I64>)
    requires |vals| == |ctrls|
    ensures |r| == |ctrls|
  {
    seq(|vals|, i requires 0 <= i < |vals| => EditedValue(ctrls[i], vals[i], EditAt(edits, i)))
  }

  /** The write the pass attempts for control `c`, if any, when its value
      goes from `before` to `after`. */
  function Due(c: Description, before: I64, after: I64, force: bool): seq<Write>
  {
    if WriteDue(c, before, after, force) then [Write(c.id, after)] else []
  }

  /** The cached values once the widgets of the first `n` controls have been
      shown, in the order the pass shows them. */
  function Shown(ctrls: seq<Description>, vals: seq<I64>, edits: map<nat, Edit>, n: nat): (r: seq<I64>)
    requires n <= |ctrls| && |vals| == |ctrls|
    ensures |r| == |vals|
  {
    if n == 0 then vals
    else Shown(ctrls, vals, edits, n - 1)[n - 1 := EditedValue(ctrls[n - 1], vals[n - 1], EditAt(edits, n - 1))]
  }

  /** The first `n` values are the widgets' results and the rest are as they were. */
  lemma {:induction false} ShownSplit(ctrls: seq<Description>, vals: seq<I64>, edits: map<nat, Edit>, n: nat)
    requires n <= |ctrls| && |vals| == |ctrls|
    ensures forall k :: 0 <= k < n ==> Shown(ctrls, vals, edits, n)[k] == NewVals(ctrls, vals, edits)[k]
    ensures forall k :: n <= k < |vals| ==> Shown(ctrls, vals, edits, n)[k] == vals[k]
  {
    if n > 0 {
      ShownSplit(ctrls, vals, edits, n - 1);
    }
  }

  /** The widget of control `n` sees the value the pass started with. */
  lemma ShownUntouched(ctrls: seq<Description>, vals: seq<I64>, edits: map<nat, Edit>, n: nat)
    requires n < |ctrls| && |vals| == |ctrls|
    ensures Shown(ctrls, vals, edits, n)[n] == vals[n]
  {
    ShownSplit(ctrls, vals, edits, n);
  }

  /** Once every widget has been shown, the values are the pass's result. */
  lemma ShownAll(ctrls: seq<Description>, vals: seq<I64>, edits: map<nat, Edit>)
    requires |vals| == |ctrls|
    ensures Shown(ctrls, vals, edits, |ctrls|) == NewVals(ctrls, vals, edits)
  {
    ShownSplit(ctrls, vals, edits, |ctrls|);
  }

  /** The writes the pass attempts on the first `n` controls, in order, when
      `before` holds the values before the widgets were shown and `after` the
      values after. */
  function Attempts(ctrls: seq<Description>, before: seq<I64>, after: seq<I64>, force: bool, n: nat): (r: seq<Write>)
    requires n <= |ctrls| && |before| == |ctrls| && |after| == |ctrls|
  {
    if n == 0 then []
    else
      Attempts(ctrls, before, after, force, n - 1) + Due(ctrls[n - 1], before[n - 1], after[n - 1], force)
  }

  /** The positions among the first `n` controls that the pass writes, in order. */
  function DueIndices(ctrls: seq<Description>, before: seq<I64>, after: seq<I64>, force: bool, n: nat): (r: seq<nat>)
    requires n <= |ctrls| && |before| == |ctrls| && |after| == |ctrls|
    ensures forall k :: 0 <= k < |r| ==> r[k] < n
  {
    if n == 0 then []
    else
      DueIndices(ctrls, before, after, force, n - 1)
      + (if WriteDue(ctrls[n - 1], before[n - 1], after[n - 1], force) then [n - 1] else [])
  }

  /** The attempted writes the device accepts, in order. */
  function Accepted(ws: seq<Write>, refused: set<Write>): seq<Write>
  {
    if |ws| == 0 then []
    else (if ws[0] in refused then [] else [ws[0]]) + Accepted(ws[1..], refused)
  }

  /** What the pass needs to run without panicking: every menu lists its items,
      and every write it makes is to a control the write handle can read. */
  predicate PassSafe(c: Cache, edits: map<nat, Edit>, force: bool, readable: set<U32>)
    requires Paired(c)
  {
    (forall i :: 0 <= i < |c.ctrls| && c.ctrls[i].typ == Menu ==> c.ctrls[i].items.Some?) &&
    (forall w :: w in Attempts(c.ctrls, c.vals, NewVals(c.ctrls, c.vals, edits), force, |c.ctrls|) ==> w.id in readable)
  }

  /** The writes of a shorter prefix of the controls come first among the
      writes of a longer one. */
  lemma {:induction false} AttemptsPrefix(ctrls: seq<Description>, before: seq<I64>, after: seq<I64>, force: bool, m: nat, n: nat)
    requires m <= n <= |ctrls| && |before| == |ctrls| && |after| == |ctrls|
    ensures Attempts(ctrls, before, after, force, m) <= Attempts(ctrls, before, after, force, n)
  {
    if m < n {
      AttemptsPrefix(ctrls, before, after, force, m, n - 1);
    }
  }

  /** A control the write rule selects is among the pass's attempted writes,
      with its post-edit value. */
  lemma {:induction false} DueWriteAttempted(ctrls: seq<Description>, before: seq<I64>, after: seq<I64>, force: bool, i: nat)
    requires i < |ctrls| && |before| == |ctrls| && |after| == |ctrls|
    requires WriteDue(ctrls[i], before[i], after[i], force)
    ensures Write(ctrls[i].id, after[i]) in Attempts(ctrls, before, after, force, |ctrls|)
  {
    var ws := Attempts(ctrls, before, after, force, i);
    AttemptsPrefix(ctrls, before, after, force, i + 1, |ctrls|);
    assert Attempts(ctrls, before, after, force, |ctrls|)[|ws|] == Write(ctrls[i].id, after[i]);
  }

  /** Control `i` is written exactly when the write rule holds for it, and the
      written positions are visited in increasing order. */
  lemma {:induction false} DueIndicesExact(ctrls: seq<Description>, before: seq<I64>, after: seq<I64>, force: bool, n: nat)
    requires n <= |ctrls| && |before| == |ctrls| && |after| == |ctrls|
    ensures forall i :: 0 <= i < n ==>
      (i in DueIndices(ctrls, before, after, force, n) <==> WriteDue(ctrls[i], before[i], after[i], force))
    ensures forall j, k :: 0 <= j < k < |DueIndices(ctrls, before, after, force, n)| ==>
      DueIndices(ctrls, before, after, force, n)[j] < DueIndices(ctrls, before, after, force, n)[k]
  {
    if n > 0 {
      DueIndicesExact(ctrls, before, after, force, n - 1);
    }
  }

  /** The k-th attempted write carries the id and the post-edit value of the
      k-th written control. */
  lemma {:induction false} AttemptsFollowDueIndices(ctrls: seq<Description>, before: seq<I64>, after: seq<I64>, force: bool, n: nat)
    requires n <= |ctrls| && |before| == |ctrls| && |after| == |ctrls|
    ensures |Attempts(ctrls, before, after, force, n)| == |DueIndices(ctrls, before, after, force, n)|
    ensures forall k :: 0 <= k < |DueIndices(ctrls, before, after, force, n)| ==>
      Attempts(ctrls, before, after, force, n)[k]
        == Write(ctrls[DueIndices(ctrls, before, after, force, n)[k]].id,
                 after[DueIndices(ctrls, before, after, force, n)[k]])
  {
    if n > 0 {
      AttemptsFollowDueIndices(ctrls, before, after, force, n - 1);
    }
  }

  /** A class header is never written, whatever its cached value and whatever
      `force` is. */
  lemma {:induction false} ClassHeadersNeverWritten(ctrls: seq<Description>, before: seq<I64>, after: seq<I64>, force: bool)
    requires |before| == |ctrls| && |after| == |ctrls|
    ensures forall i :: 0 <= i < |ctrls| && ctrls[i].typ == CtrlClass ==>
      i !in DueIndices(ctrls, before, after, force, |ctrls|)
  {
    DueIndicesExact(ctrls, before, after, force, |ctrls|);
  }

  /** A forced pass writes every control that is not a class header, the
      unsupported types included. */
  lemma {:induction false} ForcedPassWritesEveryNonClass(ctrls: seq<Description>, before: seq<I64>, after: seq<I64>)
    requires |before| == |ctrls| && |after| == |ctrls|
    ensures forall i :: 0 <= i < |ctrls| ==>
      (i in DueIndices(ctrls, before, after, true, |ctrls|) <==> ctrls[i].typ != CtrlClass)
  {
    DueIndicesExact(ctrls, before, after, true, |ctrls|);
  }

  /** An unforced pass writes exactly the non-class controls whose value the
      widget changed. */
  lemma {:induction false} UnforcedPassWritesChanges(ctrls: seq<Description>, before: seq<I64>, after: seq<I64>)
    requires |before| == |ctrls| && |after| == |ctrls|
    ensures forall i :: 0 <= i < |ctrls| ==>
      (i in DueIndices(ctrls, before, after, false, |ctrls|) <==>
         ctrls[i].typ != CtrlClass && after[i] != before[i])
  {
    DueIndicesExact(ctrls, before, after, false, |ctrls|);
  }

  /** After the widgets every Boolean holds 0 or 1, and class headers and
      unsupported controls keep the value they had. */
  lemma PassNormalizes(ctrls: seq<Description>, vals: seq<I64>, edits: map<nat, Edit>)
    requires |vals| == |ctrls|
    ensures Normalized(ctrls, NewVals(ctrls, vals, edits))
    ensures forall i :: 0 <= i < |ctrls| && (ctrls[i].typ == CtrlClass || ctrls[i].typ.Other?) ==>
      NewVals(ctrls, vals, edits)[i] == vals[i]
  {
  }

  /** With nothing changed and no force, no write is due. */
  lemma {:induction false} UnchangedUnforcedWritesNothing(ctrls: seq<Description>, vals: seq<I64>, n: nat)
    requires n <= |ctrls| && |vals| == |ctrls|
    ensures Attempts(ctrls, vals, vals, false, n) == []
  {
    if n > 0 {
      UnchangedUnforcedWritesNothing(ctrls, vals, n - 1);
    }
  }

  /** An unforced pass with no edits over normalized values writes nothing and
      changes nothing. */
  lemma {:induction false} QuietPassIsNoOp(ctrls: seq<Description>, vals: seq<I64>)
    requires |vals| == |ctrls|
    requires Normalized(ctrls, vals)
    ensures NewVals(ctrls, vals, map[]) == vals
    ensures Attempts(ctrls, vals, NewVals(ctrls, vals, map[]), false, |ctrls|) == []
  {
    assert NewVals(ctrls, vals, map[]) == vals;
    UnchangedUnforcedWritesNothing(ctrls, vals, |ctrls|);
  }

  /** Running the pass a second time with no edits and no force, right after
      any pass, writes nothing and leaves every value as the first pass left it. */
  lemma {:induction false} SecondQuietPassIsNoOp(ctrls: seq<Description>, vals: seq<I64>, edits: map<nat, Edit>)
    requires |vals| == |ctrls|
    ensures NewVals(ctrls, NewVals(ctrls, vals, edits), map[]) == NewVals(ctrls, vals, edits)
    ensures Attempts(ctrls, NewVals(ctrls, vals, edits), NewVals(ctrls, NewVals(ctrls, vals, edits), map[]), false, |ctrls|) == []
  {
    PassNormalizes(ctrls, vals, edits);
    QuietPassIsNoOp(ctrls, NewVals(ctrls, vals, edits));
  }

  /** Concatenation of writes is associative. */
  lemma AppendAssoc(a: seq<Write>, b: seq<Write>, c: seq<Write>)
    ensures a + b + c == a + (b + c)
  {
  }

  /** Filtering a concatenation filters each part. */
  lemma {:induction false} AcceptedAppend(ws: seq<Write>, vs: seq<Write>, refused: set<Write>)
    ensures Accepted(ws + vs, refused) == Accepted(ws, refused) + Accepted(vs, refused)
  {
    if |ws| > 0 {
      assert (ws + vs)[1..] == ws[1..] + vs;
      AcceptedAppend(ws[1..], vs, refused);
    } else {
      assert ws + vs == vs;
    }
  }

  /** The device accepts exactly the attempted writes it does not refuse, so a
      refused write drops only itself. */
  lemma {:induction false} AcceptedExact(ws: seq<Write>, refused: set<Write>)
    ensures |Accepted(ws, refused)| <= |ws|
    ensures forall w :: w in Accepted(ws, refused) <==> w in ws && w !in refused
  {
    if |ws| > 0 {
      AcceptedExact(ws[1..], refused);
      assert ws == [ws[0]] + ws[1..];
    }
  }
}
