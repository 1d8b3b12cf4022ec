/** The device-orientation part of `device-features.js` as one immutable record: the
    enabled flag, the subscribed handler, the two listener lists, the detector and its
    configuration, and the exported operations over it. */
module DeviceOrientation {
  import opened Optional
  import opened Registry
  import opened QuickTilt

  /** The module variables. `subscribed` stands for `orientationHandler` being set
      (and added as the window's `deviceorientation` listener). */
  datatype State = State(
    enabled: bool,
    subscribed: bool,
    readers: seq<Listener>,
    tilters: seq<Listener>,
    detector: Detector,
    config: Config)

  /** The state when the module is loaded. */
  const Initial: State := State(false, false, [], [], Unseeded, DefaultConfig)

  /** What every reachable state satisfies. */
  predicate Valid(s: State) {
    && s.subscribed == s.enabled
    && NoDuplicates(s.readers)
    && NoDuplicates(s.tilters)
    && BaselineConsistent(s.detector)
  }

  /** What `DeviceOrientationEvent.requestPermission` does on this platform. */
  datatype Permission =
    | NotRequired             // there is no `requestPermission` function
    | Answered(result: string) // the promise resolved to this string
    | Failed                  // the call threw or the promise rejected

  /** `enableDeviceOrientation`, with `isDeviceOrientationSupported()` and the permission
      prompt as inputs. Returns the new state and the resolved boolean. */
  function Enable(s: State, supported: bool, permission: Permission): (r: (State, bool))
    // the support check comes first, so even an enabled module answers false
    ensures !supported ==> r == (s, false)
    // already enabled: true, and nothing changes (no second subscription)
    ensures supported && s.enabled ==> r == (s, true)
    // a refused or failed permission request leaves the state as it was
    ensures !r.1 ==> r.0 == s
    // on success the module is enabled, with its handler subscribed
    ensures r.1 ==> r.0.enabled && (r.0.subscribed || s.enabled)
    // success needs support, and a grant whenever a prompt is required
    ensures r.1 <==> supported && (s.enabled || permission == NotRequired || permission == Answered("granted"))
    // enabling touches neither the detector, nor the configuration, nor the listeners
    ensures r.0 == s.(enabled := r.0.enabled, subscribed := r.0.subscribed)
  {
    if !supported then (s, false)
    else if s.enabled then (s, true)
    else
      match permission
      case Failed => (s, false)
      case Answered(result) =>
        if result != "granted" then (s, false) else (s.(subscribed := true, enabled := true), true)
      case NotRequired => (s.(subscribed := true, enabled := true), true)
  }

  /** `disableDeviceOrientation`. */
  function Disable(s: State): (r: State)
    // a disabled module is left alone
    ensures !s.enabled ==> r == s
    // afterwards the module is off; an enabled one is also unsubscribed
    ensures !r.enabled && (s.enabled ==> !r.subscribed)
    // an enabled module forgets its baseline and its cooldown
    ensures s.enabled ==> r.detector == Unseeded
    // the configuration and the listeners survive
    ensures r.config == s.config && r.readers == s.readers && r.tilters == s.tilters
  {
    if !s.enabled then s
    else s.(subscribed := false, enabled := false, detector := Unseeded)
  }

  /** Enabling and disabling are idempotent. */
  lemma LifecycleIdempotent(s: State, supported: bool, permission: Permission, again: Permission)
    ensures Disable(Disable(s)) == Disable(s)
    ensures var (e, ok) := Enable(s, supported, permission);
            ok ==> Enable(e, supported, again) == (e, true)
  {
  }

  /** `handleOrientationEvent` on the module state: only the detector changes. */
  function HandleOrientationEvent(s: State, e: Sample, now: int): (r: (State, seq<Delivery<Payload>>))
    ensures r.0 == s.(detector := r.0.detector)
    ensures Valid(s) ==> Valid(r.0)
  {
    var step := Step(s.detector, s.config, s.readers, s.tilters, e, now);
    (s.(detector := step.detector), step.sent)
  }

  /** After a disable, re-enabling does not make the next sample fire: it only seeds.
      This relies on listeners not calling back into the module during a step, which
      the model does not let them do. */
  lemma FirstSampleAfterReenableOnlySeeds(s: State, supported: bool, permission: Permission, e: Sample, now: int)
    requires s.enabled
    ensures var (on, _) := Enable(Disable(s), supported, permission);
            HandleOrientationEvent(on, e, now).1 == []
  {
  }

  /** A call of one of the exported functions. */
  datatype Op =
    | CallEnable(supported: bool, permission: Permission)
    | CallDisable
    | CallSetQuickTiltConfig(opts: ConfigOptions)
    | CallOnOrientationChange(cb: Callback)
    | CallOffOrientationChange(cb: Callback)
    | CallOnQuickTilt(cb: Callback)
    | CallOffQuickTilt(cb: Callback)
    | CallHandleOrientationEvent(sample: Sample, now: int)

  /** The state after one call. */
  function Apply(s: State, op: Op): (r: State)
    ensures Valid(s) ==> Valid(r)
  {
    match op
    case CallEnable(supported, permission) => Enable(s, supported, permission).0
    case CallDisable => Disable(s)
    case CallSetQuickTiltConfig(opts) => s.(config := SetQuickTiltConfig(s.config, opts))
    case CallOnOrientationChange(cb) => s.(readers := Register(s.readers, cb))
    case CallOffOrientationChange(cb) => s.(readers := Unregister(s.readers, cb))
    case CallOnQuickTilt(cb) => s.(tilters := Register(s.tilters, cb))
    case CallOffQuickTilt(cb) => s.(tilters := Unregister(s.tilters, cb))
    case CallHandleOrientationEvent(e, now) => HandleOrientationEvent(s, e, now).0
  }

  /** The state after a sequence of calls. */
  function ApplyAll(s: State, ops: seq<Op>): (r: State)
    ensures Valid(s) ==> Valid(r)
    decreases |ops|
  {
    if ops == [] then s else ApplyAll(Apply(s, ops[0]), ops[1..])
  }

  /** Whatever the exported functions are called with, in whatever order: the handler
      is subscribed exactly when the module is enabled, neither listener list holds a
      callback twice, and the baseline fields are all `null` or all set. */
  lemma ReachableStatesValid(ops: seq<Op>)
    ensures Valid(ApplyAll(Initial, ops))
  {
  }
}
