/** The panel's per-frame control logic: which device is selected, when the
    cached device is rebuilt, and when the apply pass runs. Rendering is
    reduced to the frame's inputs: the path picked in the device list, the two
    buttons, the outcome of opening the device, its display label and the
    operator's edits. */
module Selection {
  import opened Controls
  import opened Sync
  import opened Devices
  import opened CachedDevices

  /** Opening the selected path: it fails, or it yields a handle whose control
      query answers `query`. */
  datatype OpenResult = OpenFailed | Opened(query: Option<seq<Description>>)

  /** The value view of the panel's state. */
  datatype AppState = AppState(selected: Option<Path>, selectedName: string, cached: Option<Cache>)

  /** What the operator and the environment supply in one frame. */
  datatype FrameInput = FrameInput(
    picked: Option<Path>,
    refreshClicked: bool,
    open: OpenResult,
    display: string,
    edits: map<nat, Edit>,
    forceClicked: bool)

  predicate Consistent(s: AppState)
  {
    s.cached.Some? ==> Paired(s.cached.value)
  }

  /** The path selected once the device list has been shown. */
  function Chosen(s: AppState, input: FrameInput): Option<Path>
  {
    if input.picked.Some? then input.picked else s.selected
  }

  /** The selection step of a frame: the state it leaves, and whether the
      frame goes on to the apply pass. */
  function Select(s: AppState, input: FrameInput): (r: (AppState, bool))
    requires Consistent(s)
    ensures Consistent(r.0)
  {
    var sel := Chosen(s, input);
    if sel.None? then (s, false)
    else if s.selected == sel && !input.refreshClicked then (s, true)
    else
      match input.open
      case OpenFailed => (s.(selected := sel), false)
      case Opened(query) => (AppState(sel, input.display, Built(query)), true)
  }

  /** One frame: the state it leaves and the writes it attempts. */
  function Frame(s: AppState, input: FrameInput): (r: (AppState, seq<Write>))
    requires Consistent(s)
    ensures Consistent(r.0)
    ensures r.0.selected == Chosen(s, input)
    ensures r.0.cached.Some? ==> s.cached.Some? || input.open.Opened?
  {
    var (t, go) := Select(s, input);
    if go && t.cached.Some? then
      var c := t.cached.value;
      (t.(cached := Some(Cache(c.ctrls, NewVals(c.ctrls, c.vals, input.edits)))),
       Attempts(c.ctrls, c.vals, NewVals(c.ctrls, c.vals, input.edits), input.forceClicked, |c.ctrls|))
    else
      (t, [])
  }

  /** What a frame needs to run without panicking: the apply pass it runs, if
      any, is safe on the write handle. */
  predicate FrameSafe(s: AppState, input: FrameInput, readable: set<U32>)
    requires Consistent(s)
  {
    var (t, go) := Select(s, input);
    go && t.cached.Some? ==> PassSafe(t.cached.value, input.edits, input.forceClicked, readable)
  }

  /** With no path selected before or during the frame, the frame does nothing. */
  lemma NothingSelectedNothingDone(s: AppState, input: FrameInput)
    requires Consistent(s)
    requires s.selected.None? && input.picked.None?
    ensures Frame(s, input) == (s, [])
  {
  }

  /** Without a path change or a forced refresh there is no rebuild: the label
      stays, and the apply pass runs on the cache already held. */
  lemma NoRebuildWithoutChangeOrRefresh(s: AppState, input: FrameInput)
    requires Consistent(s)
    requires Chosen(s, input) == s.selected && s.selected.Some? && !input.refreshClicked
    ensures Frame(s, input).0.selectedName == s.selectedName
    ensures Frame(s, input).0.cached.Some? <==> s.cached.Some?
    ensures s.cached.Some? ==>
      var c := s.cached.value;
      Frame(s, input).0.cached.value == Cache(c.ctrls, NewVals(c.ctrls, c.vals, input.edits)) &&
      Frame(s, input).1 == Attempts(c.ctrls, c.vals, NewVals(c.ctrls, c.vals, input.edits), input.forceClicked, |c.ctrls|)
  {
  }

  /** When a rebuild is due and the device does not open, the frame ends with
      the cache and the label as they were and no write. */
  lemma OpenFailureKeepsState(s: AppState, input: FrameInput)
    requires Consistent(s)
    requires Chosen(s, input).Some? && (Chosen(s, input) != s.selected || input.refreshClicked)
    requires input.open == OpenFailed
    ensures Frame(s, input) == (s.(selected := Chosen(s, input)), [])
  {
  }

  /** When a rebuild is due and the device opens, the cache is replaced by the
      one its control query yields (none when the query fails), the label is
      updated, and the apply pass runs on the fresh cache. */
  lemma RebuildReplacesCache(s: AppState, input: FrameInput, query: Option<seq<Description>>)
    requires Consistent(s)
    requires Chosen(s, input).Some? && (Chosen(s, input) != s.selected || input.refreshClicked)
    requires input.open == Opened(query)
    ensures Frame(s, input).0.selectedName == input.display
    ensures Frame(s, input).0.cached.Some? <==> query.Some?
    ensures query.Some? ==>
      var defaults := Built(query).value.vals;
      Frame(s, input).0.cached.value == Cache(query.value, NewVals(query.value, defaults, input.edits)) &&
      Frame(s, input).1 == Attempts(query.value, defaults, NewVals(query.value, defaults, input.edits), input.forceClicked, |query.value|)
  {
  }

  /** A rebuild keeps nothing of the earlier cache: two states that differ
      only in their cache and label end the frame alike. */
  lemma RebuildDiscardsEarlierCache(s: AppState, s': AppState, input: FrameInput)
    requires Consistent(s) && Consistent(s')
    requires s'.selected == s.selected
    requires Chosen(s, input).Some? && (Chosen(s, input) != s.selected || input.refreshClicked)
    requires input.open.Opened?
    ensures Frame(s, input) == Frame(s', input)
  {
  }

  /** Every cached Boolean holds 0 or 1. */
  predicate Settled(s: AppState)
    requires Consistent(s)
  {
    s.cached.Some? ==> Normalized(s.cached.value.ctrls, s.cached.value.vals)
  }

  /** Every frame keeps the cache settled: a fresh cache is passed through the
      widgets in the frame that builds it, and a cache the frame does not pass
      through them is the one it already had. */
  lemma FrameKeepsSettled(s: AppState, input: FrameInput)
    requires Consistent(s) && Settled(s)
    ensures Settled(Frame(s, input).0)
  {
    var (t, go) := Select(s, input);
    if go && t.cached.Some? {
      PassNormalizes(t.cached.value.ctrls, t.cached.value.vals, input.edits);
    }
  }

  /** A frame in which the operator does nothing (no new pick, no button, no
      edit) on a settled state writes nothing and changes nothing. */
  lemma IdleFrameIsNoOp(s: AppState, input: FrameInput)
    requires Consistent(s) && Settled(s)
    requires input.picked.None? && !input.refreshClicked && input.edits == map[] && !input.forceClicked
    ensures Frame(s, input) == (s, [])
  {
    if s.selected.Some? && s.cached.Some? {
      QuietPassIsNoOp(s.cached.value.ctrls, s.cached.value.vals);
    }
  }

  /** When a newly picked device does not open, the selection still moves to
      it, so the next frame without a forced refresh runs the apply pass on the
      cache of the device selected before. */
  lemma StaleCacheAfterFailedOpen(s: AppState, input: FrameInput, next: FrameInput)
    requires Consistent(s) && s.cached.Some?
    requires input.picked.Some? && input.picked != s.selected && input.open == OpenFailed
    requires next.picked.None? && !next.refreshClicked
    ensures Frame(s, input) == (s.(selected := input.picked), [])
    ensures Frame(Frame(s, input).0, next).0.cached.Some?
    ensures Frame(Frame(s, input).0, next).0.cached.value.ctrls == s.cached.value.ctrls
    ensures Frame(Frame(s, input).0, next).1 ==
      Attempts(s.cached.value.ctrls, s.cached.value.vals,
               NewVals(s.cached.value.ctrls, s.cached.value.vals, next.edits), next.forceClicked, |s.cached.value.ctrls|)
  {
  }

  function OpenResultOf(handle: Option<Device>): OpenResult
  {
    if handle.None? then OpenFailed else Opened(handle.value.controls)
  }

  class EguiApp {
    var selected: Option<Path>
    var selectedName: string
    var cachedDevice: Option<CachedDevice>

    function Footprint(): set<object>
      reads this
    {
      if cachedDevice.Some? then {cachedDevice.value} else {}
    }

    ghost predicate Valid()
      reads this, Footprint()
    {
      cachedDevice.Some? ==> cachedDevice.value.Valid()
    }

    function View(): AppState
      reads this, Footprint()
    {
      AppState(selected, selectedName, if cachedDevice.Some? then Some(cachedDevice.value.View()) else None)
    }

    constructor ()
      ensures Valid() && View() == AppState(None, "", None)
    {
      cachedDevice := None;
      selected := None;
      selectedName := "";
    }

    /** One frame. `picked` is the path clicked in the device list, if any;
        `handle` is the outcome of opening the selected path, consulted only
        when a rebuild is due; `display` is its display label; `target` is the
        separate handle every write goes to. */
    method Update(picked: Option<Path>, refreshClicked: bool, handle: Option<Device>, display: string,
                  edits: map<nat, Edit>, forceClicked: bool, target: Device)
      requires Valid()
      requires FrameSafe(View(), FrameInput(picked, refreshClicked, OpenResultOf(handle), display, edits, forceClicked), target.readable)
      modifies this, Footprint(), target
      ensures Valid() && fresh(Footprint() - old(Footprint()))
      ensures View() == Frame(old(View()), FrameInput(picked, refreshClicked, OpenResultOf(handle), display, edits, forceClicked)).0
      ensures target.attempts == old(target.attempts)
        + Frame(old(View()), FrameInput(picked, refreshClicked, OpenResultOf(handle), display, edits, forceClicked)).1
      ensures target.applied == old(target.applied)
        + Accepted(Frame(old(View()), FrameInput(picked, refreshClicked, OpenResultOf(handle), display, edits, forceClicked)).1,
                   target.refused)
    {
      var oldp := selected;
      if picked.Some? {
        selected := picked;
      }
      if selected.None? {
        return;
      }
      var path := selected.value;
      if oldp != Some(path) || refreshClicked {
        if handle.None? {
          return;
        }
        cachedDevice := CachedDevice.Mk(handle.value);
        selectedName := display;
      }
      if cachedDevice.Some? {
        cachedDevice.value.Apply(edits, forceClicked, target);
      }
    }
  }
}
