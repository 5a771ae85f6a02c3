/** Concrete frames of the apply pass on small catalogues, stated as lemmas
    about the pass's specification. */
module Scenarios {
  import opened Controls
  import opened Sync
  import opened Devices
  import opened CachedDevices

  /** An integer range control: id 1, range 0..10, default 5. */
  const Exposure := Description(1, "Exposure", Integer, 0, 10, 5, None)

  /** A menu control listing the indices 0, 1 and 2, whose default is 5. */
  const PowerLine := Description(2, "Power Line Frequency", Menu, 0, 2, 5,
                                 Some([(0, "Disabled"), (1, "50 Hz"), (2, "60 Hz")]))

  /** A control of a type the panel has no widget for, holding 4. */
  const Unsupported := Description(4, "Pan Reset", Other(4), 0, 0, 4, None)

  /** A boolean control whose default is 0, shown checked. */
  const AutoGain := Description(3, "Auto Gain", Boolean, 0, 1, 0, None)

  /** The cache starts at the default 5; sliding to 7 writes 7 to id 1; a
      second unforced pass with no edit writes nothing; a forced one writes 7
      again. */
  lemma IntegerScenario()
    ensures Built(Some([Exposure])) == Some(Cache([Exposure], [5]))
    ensures NewVals([Exposure], [5], map[0 := Slide(7)]) == [7]
    ensures Attempts([Exposure], [5], [7], false, 1) == [Write(1, 7)]
    ensures NewVals([Exposure], [7], map[]) == [7]
    ensures Attempts([Exposure], [7], [7], false, 1) == []
    ensures Attempts([Exposure], [7], [7], true, 1) == [Write(1, 7)]
  {
    assert Built(Some([Exposure])).value.vals == [5];
    assert NewVals([Exposure], [5], map[0 := Slide(7)]) == [7];
    assert NewVals([Exposure], [7], map[]) == [7];
  }

  /** A menu value outside the listed indices is kept and is written as it is
      when the operator forces the apply. */
  lemma UnlistedMenuValueScenario()
    ensures NewVals([PowerLine], [5], map[]) == [5]
    ensures Attempts([PowerLine], [5], [5], false, 1) == []
    ensures Attempts([PowerLine], [5], [5], true, 1) == [Write(2, 5)]
  {
    assert NewVals([PowerLine], [5], map[]) == [5];
  }

  /** Clicking the second radio button of a menu holding 0 stores its index 1
      and writes (2, 1). */
  lemma MenuPickScenario()
    ensures NewVals([PowerLine], [0], map[0 := Pick(1)]) == [1]
    ensures Attempts([PowerLine], [0], [1], false, 1) == [Write(2, 1)]
  {
    assert NewVals([PowerLine], [0], map[0 := Pick(1)]) == [1];
  }

  /** A control of an unsupported type keeps its value, is not written by an
      unforced pass, and is written as it is by a forced one. */
  lemma UnsupportedForcedScenario()
    ensures NewVals([Unsupported], [4], map[0 := Slide(9)]) == [4]
    ensures Attempts([Unsupported], [4], [4], false, 1) == []
    ensures Attempts([Unsupported], [4], [4], true, 1) == [Write(4, 4)]
  {
    assert NewVals([Unsupported], [4], map[0 := Slide(9)]) == [4];
  }

  /** A checked checkbox is written as 0; clicking it writes 1. */
  lemma BooleanScenario()
    ensures NewVals([AutoGain], [0], map[]) == [0]
    ensures Attempts([AutoGain], [0], [0], true, 1) == [Write(3, 0)]
    ensures NewVals([AutoGain], [0], map[0 := Toggle]) == [1]
    ensures Attempts([AutoGain], [0], [1], false, 1) == [Write(3, 1)]
  {
    assert NewVals([AutoGain], [0], map[]) == [0];
    assert NewVals([AutoGain], [0], map[0 := Toggle]) == [1];
  }

  /** An integer control with id `id`, range 0..10 and default 0. */
  function Slider(id: U32): Description
  {
    Description(id, "Slider", Integer, 0, 10, 0, None)
  }

  /** The pass specification for five integer controls at 0 forced onto a
      handle: the cache is unchanged and all five writes are attempted. */
  lemma RefusedWriteTrace(ctrls: seq<Description>, vals: seq<I64>)
    requires ctrls == [Slider(1), Slider(2), Slider(3), Slider(4), Slider(5)]
    requires vals == [0, 0, 0, 0, 0]
    ensures NewVals(ctrls, vals, map[]) == vals
    ensures Attempts(ctrls, vals, vals, true, 5) == [Write(1, 0), Write(2, 0), Write(3, 0), Write(4, 0), Write(5, 0)]
  {
    assert NewVals(ctrls, vals, map[]) == vals;
    assert Attempts(ctrls, vals, vals, true, 1) == [Write(1, 0)];
    assert Attempts(ctrls, vals, vals, true, 2) == [Write(1, 0), Write(2, 0)];
    assert Attempts(ctrls, vals, vals, true, 3) == [Write(1, 0), Write(2, 0), Write(3, 0)];
    assert Attempts(ctrls, vals, vals, true, 4) == [Write(1, 0), Write(2, 0), Write(3, 0), Write(4, 0)];
  }

  /** The device refusing the write to the third of five controls drops only
      that write: the writes to the fourth and fifth still reach it. */
  lemma RefusedWriteScenario()
    ensures Accepted([Write(1, 0), Write(2, 0), Write(3, 0), Write(4, 0), Write(5, 0)], {Write(3, 0)})
      == [Write(1, 0), Write(2, 0), Write(4, 0), Write(5, 0)]
  {
    var r := {Write(3, 0)};
    assert Accepted([Write(5, 0)], r) == [Write(5, 0)];
    assert [Write(4, 0), Write(5, 0)][1..] == [Write(5, 0)];
    assert Accepted([Write(4, 0), Write(5, 0)], r) == [Write(4, 0), Write(5, 0)];
    assert [Write(3, 0), Write(4, 0), Write(5, 0)][1..] == [Write(4, 0), Write(5, 0)];
    assert Accepted([Write(3, 0), Write(4, 0), Write(5, 0)], r) == [Write(4, 0), Write(5, 0)];
    assert [Write(2, 0), Write(3, 0), Write(4, 0), Write(5, 0)][1..] == [Write(3, 0), Write(4, 0), Write(5, 0)];
    assert Accepted([Write(2, 0), Write(3, 0), Write(4, 0), Write(5, 0)], r)
      == [Write(2, 0), Write(4, 0), Write(5, 0)];
    assert [Write(1, 0), Write(2, 0), Write(3, 0), Write(4, 0), Write(5, 0)][1..]
      == [Write(2, 0), Write(3, 0), Write(4, 0), Write(5, 0)];
  }

  /** A forced pass over five controls on a handle that refuses the write to
      the third: every control is still visited and written, and the device
      takes all writes but that one. */
  method RefusedWriteRun() returns (attempts: seq<Write>, applied: seq<Write>)
    ensures attempts == [Write(1, 0), Write(2, 0), Write(3, 0), Write(4, 0), Write(5, 0)]
    ensures applied == [Write(1, 0), Write(2, 0), Write(4, 0), Write(5, 0)]
  {
    var ctrls := [Slider(1), Slider(2), Slider(3), Slider(4), Slider(5)];
    var vals: seq<I64> := [0, 0, 0, 0, 0];
    var cd := new CachedDevice(ctrls, vals);
    var target := new Device(Some(ctrls), {1, 2, 3, 4, 5}, {Write(3, 0)});
    RefusedWriteTrace(ctrls, vals);
    RefusedWriteScenario();
    cd.Apply(map[], true, target);
    attempts := target.attempts;
    applied := target.applied;
  }
}
