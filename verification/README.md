# Quick-tilt detector of `device-features.js`, in Dafny

This project models the device-orientation half of `device-features.js`. It is a
gesture detector that watches the stream of `deviceorientation` samples (angles `beta`
and `gamma`, in degrees). It fires a "quick tilt" when either angle changes by more
than `angleThreshold` within less than `timeThresholdMs`. After a fire it stays silent
for `cooldownMs`. The model also covers the state around the detector: the
enable/disable lifecycle, the partial configuration update and the two listener lists.

Modules:

- `Optional` (`optional.dfy`): `Option`, used for JavaScript `null`/`undefined`.
- `Registry` (`registry.dfy`): the listener lists and the `try/catch` `forEach` that
  notifies them. A listener is an opaque identity (`===`).
- `QuickTilt` (`quick_tilt.dfy`): the configuration, the detector record
  `{lastBeta, lastGamma, lastTime, cooldownUntil}`, the pure step
  `Step(detector, config, readers, tilters, sample, now)`, and runs of many samples.
  `Step` returns the new detector and the notifications it sends, as
  (listener, payload) pairs.
- `DeviceOrientation` (`device_orientation.dfy`): the module variables as one record.
  It holds the exported operations over that record and the invariant that every
  sequence of calls preserves.

The clock (`Date.now()`) is the parameter `now`, in milliseconds. Angles and thresholds
are exact `real`s. The support check and the permission prompt are inputs of `Enable`.

Behaviours of `device-features.js` that are easy to miss:

- Bootstrap is decided by `lastBeta === null` (line 103), not by `lastTime`.
- `dt = now - (lastTime ?? now)` (line 110) is not clamped. A sample stamped before its
  baseline has a negative `dt`, which passes `dt < timeThresholdMs` (line 120), as
  `QuickTilt.NegativeDtFires` shows.
- `enableDeviceOrientation` checks support (line 139) before the enabled flag
  (line 140). An enabled module on a platform reported unsupported therefore answers
  `false`.
- The detector is reset by `disableDeviceOrientation` only (lines 169-172), not at
  enable time.
- The thresholds accept any number (lines 91-93); nothing checks `> 0`.

## Model

| member | source | states |
|---|---|---|
| Registry.Register | device-features.js:175-178 | a non-function or an already-registered callback leaves the list exactly as it was, whatever the list; otherwise the callback is appended; the list's members grow by exactly that callback, the old list stays a prefix, and a duplicate-free list stays duplicate-free |
| Registry.Unregister | device-features.js:180-182 | the result holds exactly the listeners other than the callback, is no longer than before, and stays duplicate-free |
| Registry.UnregisterAppend | device-features.js:180-182 | removal is element-wise, so the listeners that stay keep their relative order |
| Registry.UnregisterAbsent | device-features.js:180-182 | removing a callback that is not registered changes nothing |
| Registry.RegisterUnregister | device-features.js:175-182 | unregistering after registering equals unregistering alone, and gives back the original list when the callback was not in it |
| Registry.RegistrationIdempotent | device-features.js:175-182 | registering twice equals registering once; unregistering twice equals unregistering once |
| Registry.BroadcastDeliversOnce | device-features.js:114-118 | with a duplicate-free list, one notification round calls each registered listener exactly once with the payload and nobody else |
| Registry.BroadcastOnlyItsPayload | device-features.js:121-125 | a notification round delivers no payload other than its own |
| Registry.Dispatch | device-features.js:114-118 | the per-listener try/catch loop calls every listener once, in list order, with the payload; its result equals `Broadcast`, the form the detector's step uses |
| QuickTilt.SetQuickTiltConfig | device-features.js:90-94 | each numeric option overwrites its threshold, and every other threshold keeps its old value |
| QuickTilt.ConfigUpdatesCompose | device-features.js:90-94 | two updates in a row equal one merged update in which the later numbers win; repeating an update changes nothing; an update with no numbers is the identity |
| QuickTilt.Step | device-features.js:96-136 | a sample with a missing angle or stamped inside the cooldown changes nothing and notifies nobody; an admitted sample becomes the baseline whether or not it fired; the three baseline fields stay all-null or all-set; bootstrap notifies nobody; cooldownUntil moves only on a fire, to now + cooldownMs, and with a non-negative cooldown never moves backwards |
| QuickTilt.DeltasUseBaseline | device-features.js:103-112 | under the baseline invariant, dt and the angle deltas are taken against the recorded baseline; the `?? now` fallback and null coercion are never used |
| QuickTilt.ReadersNotifiedOnce | device-features.js:114-125 | on a seeded detector, every admitted sample reaches each sample listener exactly once with {alpha, beta, gamma, dt, diffBeta, diffGamma}, and unregistered callbacks get no reading; no listener receives any payload other than the reading and the tilt; the step sends exactly one call per sample listener plus, on a fire, one per quick-tilt listener; all sample listeners are called first, in list order |
| QuickTilt.TiltersNotifiedIffFires | device-features.js:120-126 | a quick-tilt listener receives {diffBeta, diffGamma} exactly once if dt < timeThresholdMs and either delta exceeds angleThreshold, and never otherwise |
| QuickTilt.ThresholdsAreStrict | device-features.js:120 | deltas equal to the angle threshold, or dt equal to the time threshold, do not fire; a beta delta strictly above the threshold within the window does fire |
| QuickTilt.Run | device-features.js:96-136 | over any stream of samples the baseline stays one snapshot, a seeded detector stays seeded, and with a non-negative cooldown cooldownUntil never decreases |
| QuickTilt.CooldownSilence | device-features.js:101 | samples stamped before cooldownUntil are fully discarded: state including the baseline is unchanged and nobody is notified |
| QuickTilt.NoRefireDuringCooldown | device-features.js:101-126 | after a fire at time T, every later sample stamped before T + cooldownMs is dropped, so no second quick tilt fires in that window |
| QuickTilt.BootstrapNeverFires | device-features.js:103-107 | on an unseeded detector a sample never fires and notifies nobody; if admitted it sets the baseline to (beta, gamma, now) and leaves cooldownUntil alone |
| QuickTilt.NegativeDtFires | device-features.js:110-120 | dt is not clamped: a sample 100 ms older than its baseline has dt = -100 and fires on a 40 degree change |
| QuickTilt.DefaultScenario | device-features.js:79-136 | with the default thresholds, samples (0,0)@0, (30,0)@100, (0,0)@300, (0,0)@650: the second fires and sets the cooldown to 600, the third is dropped, the fourth reports dt 550 and diffBeta 30 and does not fire |
| DeviceOrientation.Enable | device-features.js:138-158 | unsupported gives false with no change; already enabled gives true with no change; a refused or failed permission request gives false with no change; it succeeds iff supported and (already enabled or no prompt or "granted"); on success the module is enabled and subscribed; the detector, config and listeners are untouched |
| DeviceOrientation.Disable | device-features.js:160-173 | a disabled module is left alone; an enabled one ends disabled and unsubscribed, with no baseline and cooldownUntil = 0; config and listeners survive |
| DeviceOrientation.LifecycleIdempotent | device-features.js:138-173 | disabling twice equals disabling once; after a successful enable, enabling again gives true and changes nothing |
| DeviceOrientation.HandleOrientationEvent | device-features.js:96-136 | a sample changes only the detector and keeps the module invariant |
| DeviceOrientation.FirstSampleAfterReenableOnlySeeds | device-features.js:160-173 | after disable and enable, the first sample notifies nobody, because disable cleared the baseline (assuming listeners do not call back into the module, see "Left out") |
| DeviceOrientation.Apply | device-features.js:71-192 | every exported operation keeps the invariant: subscribed iff enabled, duplicate-free listener lists, consistent baseline |
| DeviceOrientation.ApplyAll | device-features.js:71-192 | any sequence of exported calls keeps that invariant |
| DeviceOrientation.ReachableStatesValid | device-features.js:71-84 | starting from the load-time state, the invariant holds after every sequence of calls |

## Left out

- The vibration helpers (device-features.js:1-68) are left out. They are thin
  wrappers over `navigator.vibrate` with constant patterns.
- `isDeviceOrientationSupported` is an input of `Enable`, because it queries `window`.
- `DeviceOrientationEvent.requestPermission` is an input of `Enable`. It can resolve
  to some string, throw, or be absent.
- `window.addEventListener` and `removeEventListener` become the `subscribed` flag.
  Event delivery by the browser is not modelled. `handleOrientationEvent` is exported,
  so the model lets it run whether or not the module is enabled.
- Overlapping `enableDeviceOrientation` calls that interleave at the `await` are not
  modelled. Each call is atomic in the model.
- JavaScript doubles are modelled as exact reals. NaN, infinities and rounding in
  `Math.abs` and subtraction are not modelled.
- The `typeof === "number"` tests of `setQuickTiltConfig` are modelled as `Option`
  fields. A non-number is `None`.
- Listeners that throw are not modelled as exceptions. Each listener is still called
  once and the detector is unaffected, which is what the per-listener `try/catch`
  ensures.
- Listeners are assumed not to call the module's exported functions while they are
  notified. In the code, the fire test, the quick-tilt list and `cooldownMs`
  (lines 120-126) and the baseline writes (lines 127-135) happen after the sample
  listeners run (lines 114-118). A sample listener that calls `setQuickTiltConfig`,
  `onQuickTilt`/`offQuickTilt` or `disableDeviceOrientation` therefore changes the
  rest of that same step. `QuickTilt.Step` instead uses the configuration and the
  quick-tilt list as they were before any listener ran. For example, a
  `disableDeviceOrientation()` call inside a sample listener is followed by the
  baseline writes, which leaves a disabled module with a baseline. The first sample
  after the next enable is then diffed against it and can fire, which
  `DeviceOrientation.FirstSampleAfterReenableOnlySeeds` does not cover.
- `setQuickTiltConfig(null)` throws a `TypeError` at line 91, because the default `{}`
  replaces only `undefined`. The model's options record cannot be `null`, so this
  throw is not modelled.
- `class manager.js` is not part of this model. It is storage and DOM glue.
