/**
 * The interactive render node's state machine. The node holds its current
 * state, an optional renderer and an optional render controller, and an
 * optional explicit context. `update()` brings it to the state its state plug
 * asks for: stopping drops the renderer and controller, pausing and running
 * create them when missing and pause the renderer, and running then updates
 * the scene and renders.
 *
 * The renderer and controller are abstract: a renderer is its type and a
 * serial number, a controller the renderer it drives and the context it was
 * given. Every call on them that returns is recorded, in order, in `events`;
 * which call (if any) throws is a parameter, and so are the values read from
 * plugs, whether the input scene comes from a scene node, and the fresh
 * context `effectiveContext()` would allocate.
 */
module InteractiveRender {

  import opened Wrappers

  /** `InteractiveRender::State`. */
  datatype State = Stopped | Running | Paused

  datatype Context = Context(id: nat)

  datatype Renderer = Renderer(rendererType: string, serial: nat)

  datatype Controller = Controller(renderer: nat, context: Context)

  /** A call on the renderer or the controller that returned. */
  datatype Event =
    | CreateRenderer(rendererType: string)
    | CreateController(context: Context)
    | Pause
    | UpdateScene
    | Render
    | ForwardContext(context: Context)

  /**
   * Which outside call throws during an update, if any: `Renderer::create`,
   * the `RenderController` constructor, `pause()`, the controller's
   * `update()` or `render()`.
   */
  datatype Fault = NoFault | CreateFault | ControllerFault | PauseFault | UpdateFault | RenderFault

  /** The plugs whose dirtiness the node hears about. */
  datatype Plug = RendererPlug | StatePlug | InPlug | OtherPlug

  /** The fields an update changes. */
  datatype Snapshot = Snapshot(
    state: State,
    renderer: Option<Renderer>,
    controller: Option<Controller>,
    events: seq<Event>,
    created: nat)

  /** A controller always drives the current renderer. */
  predicate Coupled(s: Snapshot)
  {
    s.controller.Some? ==> s.renderer.Some? && s.controller.value.renderer == s.renderer.value.serial
  }

  /**
   * A renderer always comes with its controller. Only a controller
   * constructor that throws breaks this: the renderer is already stored.
   */
  predicate Paired(s: Snapshot)
  {
    s.renderer.Some? <==> s.controller.Some?
  }

  /**
   * The update does not reach `m_controller->update()` with a null
   * controller, which it would for a running update of a renderer whose
   * controller was never built.
   */
  predicate Defined(s: Snapshot, required: State, fromScene: bool)
  {
    !(required == Running && fromScene && s.renderer.Some? && s.controller.None?)
  }

  /** A paused or running node has a renderer. */
  predicate Live(s: Snapshot)
  {
    s.state != Stopped ==> s.renderer.Some?
  }

  /** The calls that create a renderer and its controller, when there is none yet. */
  function Creation(s: Snapshot, rendererType: string, ctx: Context): seq<Event>
  {
    if s.renderer.None? then [CreateRenderer(rendererType), CreateController(ctx)] else []
  }

  /**
   * What `update()` does to the fields, and whether it throws. `ctx` is the
   * effective context at the time of the call.
   */
  function Updated(s: Snapshot, required: State, fromScene: bool, rendererType: string, ctx: Context, fault: Fault)
    : (Snapshot, bool)
    requires Coupled(s) && Defined(s, required, fromScene)
  {
    if required == Stopped || !fromScene then (Snapshot(Stopped, None, None, s.events, s.created), false)
    else if s.renderer.None? && fault == CreateFault then (s, true)
    else if s.renderer.None? && fault == ControllerFault then
      (Snapshot(s.state, Some(Renderer(rendererType, s.created)), s.controller,
                s.events + [CreateRenderer(rendererType)], s.created + 1), true)
    else
      var r := if s.renderer.None? then Renderer(rendererType, s.created) else s.renderer.value;
      var c := if s.renderer.None? then Some(Controller(s.created, ctx)) else s.controller;
      var n := if s.renderer.None? then s.created + 1 else s.created;
      var built := s.events + Creation(s, rendererType, ctx);
      var paused := built + [Pause];
      if fault == PauseFault then (Snapshot(s.state, Some(r), c, built, n), true)
      else if required == Paused then (Snapshot(Paused, Some(r), c, paused, n), false)
      else if fault == UpdateFault then (Snapshot(s.state, Some(r), c, paused, n), true)
      else if fault == RenderFault then (Snapshot(Running, Some(r), c, paused + [UpdateScene], n), true)
      else (Snapshot(Running, Some(r), c, paused + [UpdateScene] + [Render], n), false)
  }

  class InteractiveRender {

    var state: State
    var renderer: Option<Renderer>
    var controller: Option<Controller>
    /** `m_context`: the explicit context, null when none was set. */
    var context: Option<Context>
    /** The context of the ancestor script node, if the node has one. */
    var scriptContext: Option<Context>
    var events: seq<Event>
    /** The number of renderers created so far, which numbers the next one. */
    var created: nat
    /** The plug of each error signalled from `plugDirtied`, in order. */
    var errors: seq<Plug>

    function Snap(): Snapshot
      reads this
    {
      Snapshot(state, renderer, controller, events, created)
    }

    /** A new node: stopped, with no renderer, controller, context or error. */
    constructor (scriptContext: Option<Context>)
      ensures state == Stopped && renderer == None && controller == None && context == None
      ensures this.scriptContext == scriptContext && events == [] && created == 0 && errors == []
      ensures Coupled(Snap()) && Paired(Snap()) && Live(Snap())
    {
      state := Stopped;
      renderer := None;
      controller := None;
      context := None;
      this.scriptContext := scriptContext;
      events := [];
      created := 0;
      errors := [];
    }

    /** `effectiveContext()`: the explicit context, else the script's, else a fresh one. */
    function EffectiveContext(newContext: Context): (r: Context)
      reads this
      ensures context.Some? ==> r == context.value
      ensures context.None? && scriptContext.Some? ==> r == scriptContext.value
      ensures context.None? && scriptContext.None? ==> r == newContext
    {
      if context.Some? then context.value
      else if scriptContext.Some? then scriptContext.value
      else newContext
    }

    /** `stop()`: drops the controller and the renderer and is Stopped. */
    method Stop()
      modifies this
      ensures state == Stopped && renderer == None && controller == None
      ensures context == old(context) && scriptContext == old(scriptContext)
      ensures events == old(events) && created == old(created) && errors == old(errors)
    {
      controller := None;
      renderer := None;
      state := Stopped;
    }

    /**
     * `update()`, given the state plug's value, whether the input's source is
     * a scene node and the renderer plug's value. It returns whether it threw.
     */
    method Update(required: State, fromScene: bool, rendererType: string, newContext: Context, fault: Fault)
      returns (thrown: bool)
      requires Coupled(Snap()) && Defined(Snap(), required, fromScene)
      modifies this
      ensures Coupled(Snap())
      ensures (Snap(), thrown) == Updated(old(Snap()), required, fromScene, rendererType, old(EffectiveContext(newContext)), fault)
      ensures context == old(context) && scriptContext == old(scriptContext) && errors == old(errors)
    {
      if required == Stopped || !fromScene {
        Stop();
        return false;
      }
      ghost var before, ctx0 := Snap(), EffectiveContext(newContext);
      if renderer.None? {
        if fault == CreateFault {
          return true;
        }
        renderer := Some(Renderer(rendererType, created));
        events := events + [CreateRenderer(rendererType)];
        created := created + 1;
        if fault == ControllerFault {
          return true;
        }
        var ctx := EffectiveContext(newContext);
        controller := Some(Controller(created - 1, ctx));
        events := events + [CreateController(ctx)];
      }
      assert events == before.events + Creation(before, rendererType, ctx0);
      if fault == PauseFault {
        return true;
      }
      events := events + [Pause];
      if required == Paused {
        state := required;
        return false;
      }
      if fault == UpdateFault {
        return true;
      }
      events := events + [UpdateScene];
      state := required;
      if fault == RenderFault {
        return true;
      }
      events := events + [Render];
      thrown := false;
    }

    /**
     * `setContext( c )`: nothing happens for the current context; otherwise
     * it is stored, and an existing controller is given the new effective context.
     */
    method SetContext(c: Option<Context>, newContext: Context)
      modifies this
      ensures c == old(context) ==> unchanged(this)
      ensures c != old(context) ==>
        context == c && state == old(state) && renderer == old(renderer) && created == old(created)
        && scriptContext == old(scriptContext) && errors == old(errors)
      ensures c != old(context) && old(controller).Some? ==>
        controller == Some(Controller(old(controller).value.renderer, EffectiveContext(newContext)))
        && events == old(events) + [ForwardContext(EffectiveContext(newContext))]
      ensures c != old(context) && old(controller).None? ==> controller == None && events == old(events)
    {
      if context == c {
        return;
      }
      context := c;
      if controller.Some? {
        var ctx := EffectiveContext(newContext);
        controller := Some(Controller(controller.value.renderer, ctx));
        events := events + [ForwardContext(ctx)];
      }
    }

    /**
     * `plugDirtied( plug )`: only the renderer and state plugs cause an
     * update, and an update that throws is reported as an error on the plug
     * instead of propagating.
     */
    method PlugDirtied(plug: Plug, required: State, fromScene: bool, rendererType: string, newContext: Context, fault: Fault)
      requires Coupled(Snap()) && Defined(Snap(), required, fromScene)
      modifies this
      ensures Coupled(Snap())
      ensures plug != RendererPlug && plug != StatePlug ==> unchanged(this)
      ensures plug == RendererPlug || plug == StatePlug ==>
        var (s, thrown) := Updated(old(Snap()), required, fromScene, rendererType, old(EffectiveContext(newContext)), fault);
        Snap() == s && errors == old(errors) + (if thrown then [plug] else [])
        && context == old(context) && scriptContext == old(scriptContext)
    {
      if plug == RendererPlug || plug == StatePlug {
        var thrown := Update(required, fromScene, rendererType, newContext, fault);
        if thrown {
          errors := errors + [plug];
        }
      }
    }
  }

  // ---------------------------------------------------------------- laws of update

  /**
   * An update keeps the controller with the current renderer and a live node
   * with a renderer, and keeps the renderer with a controller unless the
   * controller constructor throws.
   */
  lemma UpdatePreservesInvariants(s: Snapshot, required: State, fromScene: bool, rendererType: string, ctx: Context, fault: Fault)
    requires Coupled(s) && Live(s) && Defined(s, required, fromScene)
    ensures Coupled(Updated(s, required, fromScene, rendererType, ctx, fault).0)
    ensures Live(Updated(s, required, fromScene, rendererType, ctx, fault).0)
    ensures Paired(s) && !(s.renderer.None? && fault == ControllerFault) ==>
      Paired(Updated(s, required, fromScene, rendererType, ctx, fault).0)
  {
  }

  /**
   * A controller constructor that throws leaves the new renderer stored with
   * no controller; a running update after that would dereference the null
   * controller, while a paused one is still defined.
   */
  lemma FailedControllerStrandsRenderer(s: Snapshot, required: State, rendererType: string, ctx: Context)
    requires Coupled(s) && Paired(s) && s.renderer.None? && required != Stopped
    ensures var (r, thrown) := Updated(s, required, true, rendererType, ctx, ControllerFault);
      thrown && r.renderer == Some(Renderer(rendererType, s.created)) && r.controller == None
      && r.state == s.state && r.events == s.events + [CreateRenderer(rendererType)]
      && !Paired(r) && !Defined(r, Running, true) && Defined(r, Paused, true)
  {
  }

  /**
   * A `pause()` that throws leaves the state as it was and keeps what was
   * created, with no call after the creation.
   */
  lemma FailedPauseKeepsState(s: Snapshot, required: State, rendererType: string, ctx: Context)
    requires Coupled(s) && Defined(s, required, true) && required != Stopped
    ensures var (r, thrown) := Updated(s, required, true, rendererType, ctx, PauseFault);
      thrown && r.state == s.state && r.renderer.Some? && r.events == s.events + Creation(s, rendererType, ctx)
    ensures s.renderer.Some? ==> Updated(s, required, true, rendererType, ctx, PauseFault) == (s, true)
  {
    if s.renderer.Some? {
      assert s.events + Creation(s, rendererType, ctx) == s.events;
    }
  }

  /** Asking for Stopped, or having no scene node upstream, stops: no renderer, no controller, no call. */
  lemma StoppingClears(s: Snapshot, required: State, fromScene: bool, rendererType: string, ctx: Context, fault: Fault)
    requires Coupled(s)
    requires required == Stopped || !fromScene
    ensures var (r, thrown) := Updated(s, required, fromScene, rendererType, ctx, fault);
      r.state == Stopped && r.renderer == None && r.controller == None && r.events == s.events && !thrown
  {
  }

  /** An existing renderer and controller are reused; no new one is created. */
  lemma ExistingRendererReused(s: Snapshot, required: State, fromScene: bool, rendererType: string, ctx: Context, fault: Fault)
    requires Coupled(s) && Defined(s, required, fromScene) && s.renderer.Some?
    requires required != Stopped && fromScene
    ensures var r := Updated(s, required, fromScene, rendererType, ctx, fault).0;
      r.renderer == s.renderer && r.controller == s.controller && r.created == s.created
      && CreateRenderer(rendererType) !in r.events[|s.events|..]
  {
  }

  /** Without a renderer, one of the plug's type is created, with a controller on the effective context. */
  lemma MissingRendererCreated(s: Snapshot, required: State, fromScene: bool, rendererType: string, ctx: Context, fault: Fault)
    requires Coupled(s) && s.renderer.None?
    requires required != Stopped && fromScene && fault != CreateFault && fault != ControllerFault
    ensures var r := Updated(s, required, fromScene, rendererType, ctx, fault).0;
      r.renderer == Some(Renderer(rendererType, s.created)) && r.controller == Some(Controller(s.created, ctx))
      && r.created == s.created + 1
      && r.events[..|s.events| + 2] == s.events + [CreateRenderer(rendererType), CreateController(ctx)]
      && (fault != PauseFault ==> r.events[..|s.events| + 3] == s.events + [CreateRenderer(rendererType), CreateController(ctx), Pause])
  {
  }

  /** The first call of every non-stopping update on its renderer is a pause. */
  lemma PausesFirst(s: Snapshot, required: State, fromScene: bool, rendererType: string, ctx: Context, fault: Fault)
    requires Coupled(s) && Defined(s, required, fromScene)
    requires required != Stopped && fromScene && fault != PauseFault
    requires !(s.renderer.None? && (fault == CreateFault || fault == ControllerFault))
    ensures var r := Updated(s, required, fromScene, rendererType, ctx, fault).0;
      var k := |s.events + Creation(s, rendererType, ctx)|;
      |r.events| > k && r.events[..k] == s.events + Creation(s, rendererType, ctx) && r.events[k] == Pause
  {
  }

  /** Paused only pauses: no scene update and no render, and nothing throws after the pause. */
  lemma PausedDoesNotRender(s: Snapshot, fromScene: bool, rendererType: string, ctx: Context, fault: Fault)
    requires Coupled(s) && fromScene && fault != PauseFault
    requires !(s.renderer.None? && (fault == CreateFault || fault == ControllerFault))
    ensures var (r, thrown) := Updated(s, Paused, fromScene, rendererType, ctx, fault);
      r.state == Paused && !thrown && r.events == s.events + Creation(s, rendererType, ctx) + [Pause]
      && UpdateScene !in r.events[|s.events|..] && Render !in r.events[|s.events|..]
  {
  }

  /** Running pauses, updates the scene and renders, in that order. */
  lemma RunningOrder(s: Snapshot, rendererType: string, ctx: Context)
    requires Coupled(s) && Defined(s, Running, true)
    ensures var (r, thrown) := Updated(s, Running, true, rendererType, ctx, NoFault);
      r.state == Running && !thrown
      && r.events == s.events + Creation(s, rendererType, ctx) + [Pause, UpdateScene, Render]
  {
  }

  /**
   * The state is set between the scene update and the render: a failed scene
   * update leaves the old state, a failed render leaves Running.
   */
  lemma StateSetBetweenUpdateAndRender(s: Snapshot, rendererType: string, ctx: Context)
    requires Coupled(s) && Defined(s, Running, true) && s.renderer.Some?
    ensures var (r, thrown) := Updated(s, Running, true, rendererType, ctx, UpdateFault);
      thrown && r.state == s.state && UpdateScene !in r.events[|s.events|..]
    ensures var (r, thrown) := Updated(s, Running, true, rendererType, ctx, RenderFault);
      thrown && r.state == Running && r.events == s.events + [Pause, UpdateScene]
  {
  }

  /** A failed renderer creation changes nothing. */
  lemma FailedCreationChangesNothing(s: Snapshot, required: State, rendererType: string, ctx: Context)
    requires Coupled(s) && s.renderer.None? && required != Stopped
    ensures Updated(s, required, true, rendererType, ctx, CreateFault) == (s, true)
  {
  }

  /** A second update creates nothing more: the renderer of the first is kept. */
  lemma {:induction false} SecondUpdateCreatesNothing(s: Snapshot, first: State, second: State, rendererType: string,
                                                      other: string, ctx: Context, ctx2: Context)
    requires Coupled(s) && Paired(s) && first != Stopped && second != Stopped
    ensures var r1 := Updated(s, first, true, rendererType, ctx, NoFault).0;
      Coupled(r1) && Defined(r1, second, true) &&
      var r2 := Updated(r1, second, true, other, ctx2, NoFault).0;
      r2.renderer == r1.renderer && r2.controller == r1.controller && r2.created == r1.created
  {
    var r1 := Updated(s, first, true, rendererType, ctx, NoFault).0;
    assert r1.renderer.Some? && r1.controller.Some?;
    ExistingRendererReused(r1, second, true, other, ctx2, NoFault);
  }
}
