/** The component base class and the shared frame loop: registration of
    mounted components, the per-frame change detection that decides which
    components are patched, and the mount/unmount lifecycle. */
module ImHtml {
  import opened Wrappers
  import opened Values
  import opened ArrayCompare

  /** A render result: the literal template fragments and the interpolated
      values, as produced by the `t` template tag. */
  datatype RenderResult = RenderResult(strings: seq<string>, values: seq<Value>)

  /** The part of a component the frame loop reads and writes. `view` is what
      `render()` returns for the component's current state; `renders` counts
      `render()` calls; `patches` logs every patch handed to the templating
      library, in order. */
  datatype LoopState = LoopState(
    visible: bool,
    prevValues: seq<Value>,
    view: RenderResult,
    renders: nat,
    patches: seq<RenderResult>)

  /** The effect of one frame tick on one registered component: a hidden
      component is skipped; a visible one is rendered, patched when its values
      differ from the cached ones, and its cache is overwritten either way. */
  function TickOne(s: LoopState): (r: LoopState)
    // a hidden component is left exactly as it was
    ensures !s.visible ==> r == s
    // a tick renders at most once and never changes visibility or state
    ensures r.visible == s.visible && r.view == s.view && r.renders <= s.renders + 1
    // the patch log only grows, by at most one patch carrying the fresh result
    ensures r.patches == s.patches || r.patches == s.patches + [s.view]
    // a visible component's cache always ends up holding the fresh values
    ensures s.visible ==> r.prevValues == s.view.values
  {
    if !s.visible then s
    else
      var changed := !ArraysEqual(Some(s.prevValues), Some(s.view.values));
      s.(renders := s.renders + 1,
         patches := if changed then s.patches + [s.view] else s.patches,
         prevValues := s.view.values)
  }

  /** `n` consecutive ticks while the component's state stays the same. */
  function Ticks(s: LoopState, n: nat): LoopState
    decreases n
  {
    if n == 0 then s else Ticks(TickOne(s), n - 1)
  }

  /** A visible component is patched in a tick exactly when its values
      changed, and its cache then holds the fresh values. */
  lemma PatchedIffChanged(s: LoopState)
    requires s.visible
    ensures TickOne(s).prevValues == s.view.values
    ensures TickOne(s).renders == s.renders + 1
    ensures TickOne(s).patches != s.patches <==> !ArraysEqual(Some(s.prevValues), Some(s.view.values))
    ensures TickOne(s).patches != s.patches ==> TickOne(s).patches == s.patches + [s.view]
  {
  }

  /** Once the cache holds the current values, further ticks patch nothing. */
  lemma {:induction false} CachedViewIsNeverPatched(s: LoopState, n: nat)
    requires s.prevValues == s.view.values
    ensures Ticks(s, n).patches == s.patches
    ensures Ticks(s, n).prevValues == s.view.values
    decreases n
  {
    if n > 0 {
      ArraysEqualReflexive(s.view.values);
      CachedViewIsNeverPatched(TickOne(s), n - 1);
    }
  }

  /** A second tick with unchanged state patches nothing. */
  lemma SecondTickPatchesNothing(s: LoopState)
    ensures TickOne(TickOne(s)).patches == TickOne(s).patches
  {
    if s.visible {
      ArraysEqualReflexive(s.view.values);
    }
  }

  /** However many ticks run while the state stays the same, the component is
      patched at most once, and only by the first tick. */
  lemma {:induction false} SteadyStatePatchesAtMostOnce(s: LoopState, n: nat)
    requires n > 0
    ensures Ticks(s, n).patches == TickOne(s).patches
    ensures |Ticks(s, n).patches| <= |s.patches| + 1
  {
    if s.visible {
      CachedViewIsNeverPatched(TickOne(s), n - 1);
    } else {
      HiddenStaysUntouched(s, n);
    }
  }

  /** A hidden component is never rendered, patched or re-cached. */
  lemma {:induction false} HiddenStaysUntouched(s: LoopState, n: nat)
    requires !s.visible
    ensures Ticks(s, n) == s
    decreases n
  {
    if n > 0 {
      HiddenStaysUntouched(TickOne(s), n - 1);
    }
  }

  /** Values that differ from the cached ones at a single position, with a
      value the comparator tells apart, cause exactly one patch that carries
      the fresh fragments and values. */
  lemma OneChangedValueGivesOnePatch(s: LoopState, k: nat, v: Value)
    requires s.visible && k < |s.prevValues|
    requires s.view.values == s.prevValues[k := v] && !CompareTwo(s.prevValues[k], v)
    ensures TickOne(s).patches == s.patches + [s.view]
  {
    OneChangeIsDifferent(s.prevValues, k, v);
  }

  /** The cache starts as the empty sequence, so a visible component whose
      render yields no values is never patched by the loop, while one whose
      render yields values is patched on its first tick. */
  lemma FirstTickAfterConstruction(view: RenderResult)
    ensures var s := TickOne(LoopState(true, [], view, 0, []));
            s.patches == (if view.values == [] then [] else [view])
  {
  }

  /** Which lifecycle transition a callback belongs to. */
  datatype Phase = Mount | Unmount

  /** A callback, identified by the function it is (the same function
      registered twice is one set element). */
  type CallbackId = nat

  /** What `onMount`/`onUnmount` return: removes the one callback it was
      issued for. */
  datatype Disposer = Disposer(phase: Phase, id: CallbackId)

  /** The component's mount and unmount callback sets. */
  datatype Callbacks = Callbacks(mount: set<CallbackId>, unmount: set<CallbackId>)
  {
    function Of(phase: Phase): set<CallbackId>
    {
      if phase == Mount then mount else unmount
    }

    function Add(phase: Phase, id: CallbackId): (r: Callbacks)
      ensures r.Of(phase) == Of(phase) + {id}
      ensures forall p :: p != phase ==> r.Of(p) == Of(p)
    {
      if phase == Mount then this.(mount := mount + {id}) else this.(unmount := unmount + {id})
    }

    function Remove(d: Disposer): (r: Callbacks)
      ensures r.Of(d.phase) == Of(d.phase) - {d.id}
      ensures forall p :: p != d.phase ==> r.Of(p) == Of(p)
    {
      if d.phase == Mount then this.(mount := mount - {d.id}) else this.(unmount := unmount - {d.id})
    }
  }

  /** Registering a callback that is already registered changes nothing. */
  lemma AddIsIdempotent(cbs: Callbacks, phase: Phase, id: CallbackId)
    ensures cbs.Add(phase, id).Add(phase, id) == cbs.Add(phase, id)
  {
  }

  /** Disposing right after registering a new callback restores the sets. */
  lemma DisposeUndoesAdd(cbs: Callbacks, phase: Phase, id: CallbackId)
    requires id !in cbs.Of(phase)
    ensures cbs.Add(phase, id).Remove(Disposer(phase, id)) == cbs
  {
  }

  /** What the lifecycle transitions do, in order. */
  datatype Event = CallbackRan(phase: Phase, id: CallbackId) | HookRan(phase: Phase)

  /** The events of running the given callbacks in the given order. */
  function Ran(phase: Phase, order: seq<CallbackId>): seq<Event>
  {
    seq(|order|, i requires 0 <= i < |order| => CallbackRan(phase, order[i]))
  }

  /** The event of the optional `mount()`/`unmount()` hook. */
  function Hook(phase: Phase, present: bool): seq<Event>
  {
    if present then [HookRan(phase)] else []
  }

  /** `order` lists every element of `s` exactly once (a set's iteration
      order is left open). */
  ghost predicate Enumerates(order: seq<CallbackId>, s: set<CallbackId>)
  {
    (forall i, j :: 0 <= i < j < |order| ==> order[i] != order[j]) &&
    (forall id :: id in order <==> id in s)
  }

  /** A transition runs as many callbacks as are registered: each one once. */
  lemma {:induction false} EnumerationRunsEachOnce(order: seq<CallbackId>, s: set<CallbackId>)
    requires Enumerates(order, s)
    ensures |order| == |s|
    decreases |order|
  {
    if order != [] {
      var last := order[|order| - 1];
      var init := order[..|order| - 1];
      assert order == init + [last];
      assert last !in init by {
        forall i | 0 <= i < |init| ensures init[i] != last {
          assert init[i] == order[i];
        }
      }
      assert Enumerates(init, s - {last});
      EnumerationRunsEachOnce(init, s - {last});
    }
  }

  class Component {
    var visible: bool
    var prevValues: seq<Value>
    var view: RenderResult
    var renders: nat
    var patches: seq<RenderResult>
    var callbacks: Callbacks
    var events: seq<Event>
    const hasMountHook: bool
    const hasUnmountHook: bool

    function Loop(): LoopState
      reads this
    {
      LoopState(visible, prevValues, view, renders, patches)
    }

    /** A new component is visible, has an empty value cache and no
        callbacks. */
    constructor (initialView: RenderResult, mountHook: bool, unmountHook: bool)
      ensures Loop() == LoopState(true, [], initialView, 0, [])
      ensures callbacks == Callbacks({}, {}) && events == []
      ensures hasMountHook == mountHook && hasUnmountHook == unmountHook
    {
      visible := true;
      prevValues := [];
      view := initialView;
      renders := 0;
      patches := [];
      callbacks := Callbacks({}, {});
      events := [];
      hasMountHook := mountHook;
      hasUnmountHook := unmountHook;
    }

    /** The concrete component's `render()`: the result for the current
        state. */
    method Render() returns (res: RenderResult)
      modifies this`renders
      ensures res == view && renders == old(renders) + 1
    {
      res := view;
      renders := renders + 1;
    }

    /** Patches the component with the given fragments and values, or, when
        either is absent, with a fresh render. */
    method Update(template: Option<seq<string>>, values: Option<seq<Value>>)
      modifies this`renders, this`patches
      ensures template.Some? && values.Some? ==>
                renders == old(renders) &&
                patches == old(patches) + [RenderResult(template.value, values.value)]
      ensures template.None? || values.None? ==>
                renders == old(renders) + 1 && patches == old(patches) + [view]
    {
      var strings, vals;
      if template.None? || values.None? {
        var result := Render();
        strings, vals := result.strings, result.values;
      } else {
        strings, vals := template.value, values.value;
      }
      patches := patches + [RenderResult(strings, vals)];
    }

    /** The application changes the component's state, so that `render()`
        now yields `v`. */
    method SetView(v: RenderResult)
      modifies this`view
      ensures view == v
    {
      view := v;
    }

    /** The visibility observer's notification. */
    method SetIntersecting(isIntersecting: bool)
      modifies this`visible
      ensures visible == isIntersecting
    {
      visible := isIntersecting;
    }

    method OnMount(cb: CallbackId) returns (d: Disposer)
      modifies this`callbacks
      ensures callbacks == old(callbacks).Add(Mount, cb) && d == Disposer(Mount, cb)
    {
      callbacks := callbacks.Add(Mount, cb);
      d := Disposer(Mount, cb);
    }

    method OnUnmount(cb: CallbackId) returns (d: Disposer)
      modifies this`callbacks
      ensures callbacks == old(callbacks).Add(Unmount, cb) && d == Disposer(Unmount, cb)
    {
      callbacks := callbacks.Add(Unmount, cb);
      d := Disposer(Unmount, cb);
    }

    /** Calling a disposer returned by `OnMount`/`OnUnmount`. */
    method Dispose(d: Disposer)
      modifies this`callbacks
      ensures callbacks == old(callbacks).Remove(d)
    {
      callbacks := callbacks.Remove(d);
    }

    /** Runs every callback registered for `phase` once, in the set's
        iteration order, reported in `order`. */
    method RunCallbacks(phase: Phase) returns (ghost order: seq<CallbackId>)
      modifies this`events
      ensures Enumerates(order, callbacks.Of(phase))
      ensures events == old(events) + Ran(phase, order)
    {
      var remaining := callbacks.Of(phase);
      order := [];
      while remaining != {}
        invariant remaining <= callbacks.Of(phase)
        invariant Enumerates(order, callbacks.Of(phase) - remaining)
        invariant events == old(events) + Ran(phase, order)
        decreases remaining
      {
        var id :| id in remaining;
        events := events + [CallbackRan(phase, id)];
        order := order + [id];
        remaining := remaining - {id};
      }
    }

    /** The host attached the component: mount callbacks, then the `mount()`
        hook, then registration with the frame loop (which, the first time
        in the process, runs one tick at once). */
    method Connect(s: Scheduler) returns (ghost order: seq<CallbackId>)
      requires s.Valid()
      modifies this, s
      ensures s.Valid() && s.started && s.components == old(s.components) + {this}
      ensures callbacks == old(callbacks) && Enumerates(order, callbacks.Of(Mount))
      ensures events == old(events) + Ran(Mount, order) + Hook(Mount, hasMountHook)
      ensures Loop() == if old(s.started) then old(Loop()) else TickOne(old(Loop()))
    {
      order := RunCallbacks(Mount);
      if hasMountHook {
        events := events + [HookRan(Mount)];
      }
      s.Register(this);
    }

    /** The host detached the component: unmount callbacks, then the
        `unmount()` hook, then removal from the frame loop. When no frame
        loop was ever started the removal fails (`ok` is false) after the
        callbacks and the hook have run. */
    method Disconnect(s: Scheduler) returns (ok: bool, ghost order: seq<CallbackId>)
      requires s.Valid()
      modifies this`events, s`components
      ensures s.Valid() && ok == s.started
      ensures s.components == old(s.components) - {this}
      ensures Enumerates(order, callbacks.Of(Unmount))
      ensures events == old(events) + Ran(Unmount, order) + Hook(Unmount, hasUnmountHook)
    {
      order := RunCallbacks(Unmount);
      if hasUnmountHook {
        events := events + [HookRan(Unmount)];
      }
      ok := s.Unregister(this);
    }
  }

  /** The process-wide frame loop: whether it has been started and the set of
      registered components. */
  class Scheduler {
    var started: bool
    var components: set<Component>

    ghost predicate Valid()
      reads this
    {
      !started ==> components == {}
    }

    constructor ()
      ensures Valid() && !started && components == {}
    {
      started := false;
      components := {};
    }

    /** One frame: every registered component takes one `TickOne` step; its
        callbacks and lifecycle events are untouched. */
    method Tick()
      modifies components
      ensures forall c :: c in components ==>
                c.Loop() == TickOne(old(c.Loop())) &&
                c.callbacks == old(c.callbacks) && c.events == old(c.events)
    {
      var remaining := components;
      while remaining != {}
        invariant remaining <= components
        invariant forall c :: c in components && c !in remaining ==>
                    c.Loop() == TickOne(old(c.Loop())) &&
                    c.callbacks == old(c.callbacks) && c.events == old(c.events)
        invariant forall c :: c in remaining ==>
                    c.Loop() == old(c.Loop()) &&
                    c.callbacks == old(c.callbacks) && c.events == old(c.events)
        decreases remaining
      {
        var c :| c in remaining;
        if c.visible {
          var result := c.Render();
          var same;
          ghost var stop;
          same, stop := Compare(Some(c.prevValues), Some(result.values));
          if !same {
            c.Update(Some(result.strings), Some(result.values));
          }
          c.prevValues := result.values;
        }
        remaining := remaining - {c};
      }
    }

    /** Adds a component to the loop; the first registration in the process
        creates the set and runs the first tick at once. */
    method Register(comp: Component)
      requires Valid()
      modifies this, comp
      ensures Valid() && started && components == old(components) + {comp}
      ensures comp.Loop() == if old(started) then old(comp.Loop()) else TickOne(old(comp.Loop()))
      ensures comp.callbacks == old(comp.callbacks) && comp.events == old(comp.events)
    {
      if started {
        components := components + {comp};
        return;
      }
      components := {comp};
      started := true;
      Tick();
    }

    /** Removes a component from the loop; fails when no loop exists. */
    method Unregister(comp: Component) returns (ok: bool)
      requires Valid()
      modifies this`components
      ensures Valid() && ok == started
      ensures components == old(components) - {comp}
    {
      ok := started;
      if started {
        components := components - {comp};
      }
    }
  }
}
