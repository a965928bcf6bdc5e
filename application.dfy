/** The Application main loop's fixed-timestep accumulator. The wall clock,
    the window, the renderer and the editor are outside the model: the
    elapsed time and the viewport sizes they report are parameters, and the
    calls into the scene are recorded, in order, as a trace of time steps. */
module Application {

  /** `timestep(16ms)`, in nanoseconds. */
  const TIMESTEP_NS: int := 16000000

  /** The time step every `Application::fixedUpdate` passes to the scene. */
  const FIXED_DT: real := 1.0 / 60.0

  /** A call the application makes into the scene: `Scene::fixedUpdate`
      or the per-frame `Scene::update`, with its `dt` in seconds. */
  datatype SceneCall = FixedStep(dt: real) | FrameStep(dt: real)

  /** The `dt` of the per-frame `Scene::update`: the elapsed time cut to
      whole milliseconds, times 0.001. */
  function FrameDt(elapsedNs: nat): real
  {
    (elapsedNs / 1000000) as real * 0.001
  }

  /** How many fixed updates a loop starting from `lag` runs: none for a
      negative lag, else the number of whole time steps in it. */
  function FixedSteps(lag: int): nat
  {
    if lag < 0 then 0 else lag / TIMESTEP_NS
  }

  class App {
    /** `lag` in nanoseconds; the constructor never initialises it. */
    var lag: int
    /** Every call made into the scene so far, in order. */
    var sceneCalls: seq<SceneCall>
    /** The number of editor updates made so far. */
    var editorUpdates: nat

    /** Application::Application: `lag` is left as whatever it happened to hold. */
    constructor (indeterminateLag: int)
      ensures lag == indeterminateLag && sceneCalls == [] && editorUpdates == 0
    {
      lag := indeterminateLag;
      sceneCalls := [];
      editorUpdates := 0;
    }

    /** Application::fixedUpdate: one scene step of a constant 1/60 s. */
    method FixedUpdate()
      modifies this`sceneCalls
      ensures sceneCalls == old(sceneCalls) + [FixedStep(FIXED_DT)]
    {
      sceneCalls := sceneCalls + [FixedStep(FIXED_DT)];
    }

    /** Application::update: add the elapsed time to `lag`, run one fixed
        update per whole time step in it, step the scene once with the
        frame's `dt`, then pick the viewport size from
        the window in fullscreen and from the editor otherwise; the editor is
        updated only when not in fullscreen. */
    method Update(elapsedNs: nat, fullscreen: bool, windowSize: (int, int), editorViewport: (int, int))
      returns (viewport: (int, int))
      modifies this
      ensures var total := old(lag) + elapsedNs;
        var steps := FixedSteps(total);
        |sceneCalls| == |old(sceneCalls)| + steps + 1 &&
        sceneCalls[..|old(sceneCalls)|] == old(sceneCalls) &&
        (forall k :: |old(sceneCalls)| <= k < |sceneCalls| - 1 ==> sceneCalls[k] == FixedStep(FIXED_DT)) &&
        sceneCalls[|sceneCalls| - 1] == FrameStep(FrameDt(elapsedNs)) &&
        lag == total - steps * TIMESTEP_NS
      ensures old(lag) + elapsedNs >= 0 ==> 0 <= lag < TIMESTEP_NS
      ensures viewport == (if fullscreen then windowSize else editorViewport)
      ensures editorUpdates == old(editorUpdates) + (if fullscreen then 0 else 1)
    {
      lag := lag + elapsedNs;
      ghost var total := lag;
      ghost var before := sceneCalls;
      var steps := 0;
      while lag >= TIMESTEP_NS
        invariant lag == total - steps * TIMESTEP_NS
        invariant editorUpdates == old(editorUpdates)
        invariant total >= 0 ==> lag >= 0
        invariant total < 0 ==> steps == 0 && lag == total
        invariant |sceneCalls| == |before| + steps
        invariant sceneCalls[..|before|] == before
        invariant forall k :: |before| <= k < |sceneCalls| ==> sceneCalls[k] == FixedStep(FIXED_DT)
        decreases lag
      {
        FixedUpdate();
        lag := lag - TIMESTEP_NS;
        steps := steps + 1;
      }
      StepsCount(total, steps);
      sceneCalls := sceneCalls + [FrameStep(FrameDt(elapsedNs))];
      if fullscreen {
        viewport := windowSize;
      } else {
        viewport := editorViewport;
        editorUpdates := editorUpdates + 1;
      }
    }
  }

  /** Taking whole time steps out of a non-negative total until less than one
      is left takes exactly `FixedSteps(total)` of them. */
  lemma StepsCount(total: int, steps: nat)
    requires total < 0 ==> steps == 0
    requires total >= 0 ==> 0 <= total - steps * TIMESTEP_NS < TIMESTEP_NS
    ensures steps == FixedSteps(total)
  {
  }
}
