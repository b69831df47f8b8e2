/**
 * Backend selection: WebGPU when it is available and has every required
 * feature, otherwise WebGL2 when that is available, otherwise an error.
 */
module Backend {
  import opened Wrappers

  /** A WebGPU feature list: absent (or otherwise falsy), an array, or a `Set`. */
  datatype Features = NoFeatures | ArrayList(items: seq<string>) | SetList(members: set<string>)

  datatype WebGpuEnv = WebGpuEnv(available: bool, features: Features)

  datatype WebGl2Env = WebGl2Env(available: bool)

  /** `env`; an absent part is `None`. */
  datatype BackendEnv = BackendEnv(webgpu: Option<WebGpuEnv>, webgl2: Option<WebGl2Env>)

  datatype Backend = WebGpu | WebGl2

  datatype BackendError = NoBackend   // "No supported GPU backend available (need WebGPU or WebGL2)"

  /** The features a list offers. */
  function Offered(features: Features): set<string>
  {
    match features
    case NoFeatures => {}
    case ArrayList(items) => set f | f in items
    case SetList(members) => members
  }

  /**
   * `hasAllFeatures(features, required)`; `required` is `None` when it is
   * falsy (`undefined` defaults to the empty list).
   */
  function HasAllFeatures(features: Features, required: Option<seq<string>>): (r: bool)
    ensures r <==> (required.None? || forall f | f in required.value :: f in Offered(features))
  {
    if required.None? || |required.value| == 0 then true
    else if features.NoFeatures? then
      assert required.value[0] in required.value;
      |required.value| == 0
    else match features
      case ArrayList(items) =>
        var s := set f | f in items;
        forall f | f in required.value :: f in s
      case SetList(members) => forall f | f in required.value :: f in members
  }

  /** An empty or missing list of requirements holds, even without a feature list. */
  lemma NothingRequired(features: Features)
    ensures HasAllFeatures(features, None)
    ensures HasAllFeatures(features, Some([]))
  {
  }

  /** A non-empty list of requirements fails without a feature list. */
  lemma NoListFailsRequirements(required: seq<string>)
    requires |required| > 0
    ensures !HasAllFeatures(NoFeatures, Some(required))
  {
    assert required[0] in required;
  }

  /** An array and the `Set` of its elements give the same answer. */
  lemma ArrayAgreesWithSet(items: seq<string>, required: Option<seq<string>>)
    ensures HasAllFeatures(ArrayList(items), required) == HasAllFeatures(SetList(set f | f in items), required)
  {
  }

  /** `selectBackend(env, requiredFeatures)`; `env` is `None` when it is falsy. */
  function SelectBackend(env: Option<BackendEnv>, required: Option<seq<string>>): (r: Result<Backend, BackendError>)
    ensures r == Ok(WebGpu) <==>
              env.Some? && env.value.webgpu.Some? && env.value.webgpu.value.available
              && HasAllFeatures(env.value.webgpu.value.features, required)
    ensures r == Ok(WebGl2) ==> env.Some? && env.value.webgl2.Some? && env.value.webgl2.value.available
    ensures r.Err? ==> r.error == NoBackend
  {
    var gpu := if env.Some? then env.value.webgpu else None;
    var gl2 := if env.Some? then env.value.webgl2 else None;
    if gpu.Some? && gpu.value.available && HasAllFeatures(gpu.value.features, required) then Ok(WebGpu)
    else if gl2.Some? && gl2.value.available then Ok(WebGl2)
    else Err(NoBackend)
  }

  /**
   * WebGL2 is chosen exactly when WebGPU does not qualify and WebGL2 is
   * available, and the call fails exactly when neither qualifies.
   */
  lemma FallbackOrder(env: Option<BackendEnv>, required: Option<seq<string>>)
    ensures var gpuOk := env.Some? && env.value.webgpu.Some? && env.value.webgpu.value.available
              && forall f | f in (if required.Some? then required.value else []) ::
                   f in Offered(env.value.webgpu.value.features);
      var gl2Ok := env.Some? && env.value.webgl2.Some? && env.value.webgl2.value.available;
      && (SelectBackend(env, required) == Ok(WebGl2) <==> !gpuOk && gl2Ok)
      && (SelectBackend(env, required).Err? <==> !gpuOk && !gl2Ok)
  {
  }

  /** The parts of the environment that are absent never qualify. */
  lemma NoEnvironmentFails(required: Option<seq<string>>)
    ensures SelectBackend(None, required) == Err(NoBackend)
    ensures SelectBackend(Some(BackendEnv(None, None)), required) == Err(NoBackend)
  {
  }
}
