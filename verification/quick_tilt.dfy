/** The quick-tilt detector of `device-features.js`: the state kept between orientation
    samples and the step `handleOrientationEvent` takes for each sample. The clock
    (`Date.now()`) is the parameter `now`, in milliseconds. */
module QuickTilt {
  import opened Optional
  import opened Registry

  /** The three thresholds; any number may be configured, so none is constrained here. */
  datatype Config = Config(angleThreshold: real, timeThresholdMs: real, cooldownMs: real)

  const DefaultAngleThreshold: real := 25.0
  const DefaultTimeThresholdMs: real := 250.0
  const DefaultCooldownMs: real := 500.0
  const DefaultConfig: Config := Config(DefaultAngleThreshold, DefaultTimeThresholdMs, DefaultCooldownMs)

  /** The argument of `setQuickTiltConfig`: a field that is not a number is `None`. */
  datatype ConfigOptions = ConfigOptions(angleThreshold: Option<real>, timeThresholdMs: Option<real>, cooldownMs: Option<real>)

  /** `setQuickTiltConfig`: each numeric field overwrites its threshold, each other
      field leaves it alone. */
  function SetQuickTiltConfig(c: Config, opts: ConfigOptions): (r: Config)
    ensures opts.angleThreshold == Some(r.angleThreshold) || (opts.angleThreshold.None? && r.angleThreshold == c.angleThreshold)
    ensures opts.timeThresholdMs == Some(r.timeThresholdMs) || (opts.timeThresholdMs.None? && r.timeThresholdMs == c.timeThresholdMs)
    ensures opts.cooldownMs == Some(r.cooldownMs) || (opts.cooldownMs.None? && r.cooldownMs == c.cooldownMs)
  {
    Config(opts.angleThreshold.GetOr(c.angleThreshold),
           opts.timeThresholdMs.GetOr(c.timeThresholdMs),
           opts.cooldownMs.GetOr(c.cooldownMs))
  }

  /** The options equivalent to passing `first` and then `second`: a field of `second`
      wins when it is a number. */
  function MergeOptions(first: ConfigOptions, second: ConfigOptions): ConfigOptions {
    ConfigOptions(
      if second.angleThreshold.Some? then second.angleThreshold else first.angleThreshold,
      if second.timeThresholdMs.Some? then second.timeThresholdMs else first.timeThresholdMs,
      if second.cooldownMs.Some? then second.cooldownMs else first.cooldownMs)
  }

  /** Two partial updates in a row are one merged update; repeating an update changes
      nothing more; an update without numbers changes nothing. */
  lemma ConfigUpdatesCompose(c: Config, first: ConfigOptions, second: ConfigOptions)
    ensures SetQuickTiltConfig(SetQuickTiltConfig(c, first), second) == SetQuickTiltConfig(c, MergeOptions(first, second))
    ensures SetQuickTiltConfig(SetQuickTiltConfig(c, first), first) == SetQuickTiltConfig(c, first)
    ensures SetQuickTiltConfig(c, ConfigOptions(None, None, None)) == c
  {
  }

  /** The module variables `lastBeta`, `lastGamma`, `lastTime` (`null` is `None`) and
      `cooldownUntil`. */
  datatype Detector = Detector(lastBeta: Option<real>, lastGamma: Option<real>, lastTime: Option<int>, cooldownUntil: real)

  /** The state at load time and after `disableDeviceOrientation`. */
  const Unseeded: Detector := Detector(None, None, None, 0.0)

  /** The three baseline fields form one snapshot: all `null` or all set. */
  predicate BaselineConsistent(d: Detector) {
    d.lastBeta.None? == d.lastGamma.None? && d.lastBeta.None? == d.lastTime.None?
  }

  /** Whether there is a baseline to diff against, decided as `handleOrientationEvent`
      does (`lastBeta === null`), on `lastBeta` alone. */
  predicate Seeded(d: Detector) {
    d.lastBeta.Some?
  }

  /** A `deviceorientation` event; each angle may be `null`. */
  datatype Sample = Sample(alpha: Option<real>, beta: Option<real>, gamma: Option<real>)

  /** What the listeners receive: sample listeners the full reading with its deltas,
      quick-tilt listeners the two angle deltas. */
  datatype Payload =
    | Reading(alpha: Option<real>, beta: real, gamma: real, dt: int, diffBeta: real, diffGamma: real)
    | Tilt(diffBeta: real, diffGamma: real)

  datatype StepResult = StepResult(detector: Detector, sent: seq<Delivery<Payload>>)

  function Abs(x: real): real {
    if x < 0.0 then -x else x
  }

  /** Both angles the detector uses are present. */
  predicate Complete(e: Sample) {
    e.beta.Some? && e.gamma.Some?
  }

  /** The sample gets past the missing-data guard and the cooldown guard. */
  predicate Admitted(d: Detector, e: Sample, now: int) {
    Complete(e) && !((now as real) < d.cooldownUntil)
  }

  /** Time since the baseline: `now - (lastTime ?? now)`; no clamping, so it is
      negative when the clock went backwards. */
  function Dt(d: Detector, now: int): int {
    now - d.lastTime.GetOr(now)
  }

  /** `Math.abs(angle - last)`; a `null` baseline angle counts as 0, as JavaScript's
      subtraction converts it. */
  function Diff(angle: real, last: Option<real>): real {
    Abs(angle - last.GetOr(0.0))
  }

  /** The fire test: a large change (strictly above the angle threshold on either
      axis) within a short window (strictly below the time threshold). */
  predicate TiltDetected(cfg: Config, dt: int, diffBeta: real, diffGamma: real) {
    (dt as real) < cfg.timeThresholdMs && (diffBeta > cfg.angleThreshold || diffGamma > cfg.angleThreshold)
  }

  /** The payload sample listeners receive for an admitted sample on a seeded detector. */
  function ReadingOf(d: Detector, e: Sample, now: int): Payload
    requires Complete(e)
  {
    Reading(e.alpha, e.beta.value, e.gamma.value, Dt(d, now), Diff(e.beta.value, d.lastBeta), Diff(e.gamma.value, d.lastGamma))
  }

  /** The payload quick-tilt listeners receive. */
  function TiltOf(d: Detector, e: Sample): Payload
    requires Complete(e)
  {
    Tilt(Diff(e.beta.value, d.lastBeta), Diff(e.gamma.value, d.lastGamma))
  }

  /** The sample fires a quick tilt. */
  predicate Fires(d: Detector, cfg: Config, e: Sample, now: int) {
    && Admitted(d, e, now)
    && Seeded(d)
    && TiltDetected(cfg, Dt(d, now), Diff(e.beta.value, d.lastBeta), Diff(e.gamma.value, d.lastGamma))
  }

  /** `handleOrientationEvent`: one sample through the missing-data guard, the cooldown
      guard, baseline bootstrap, delta computation, sample notification, the fire test
      and the baseline refresh. `readers` are the sample listeners, `tilters` the
      quick-tilt listeners. */
  function Step(d: Detector, cfg: Config, readers: seq<Listener>, tilters: seq<Listener>, e: Sample, now: int): (r: StepResult)
    // a dropped sample changes nothing and tells no one
    ensures !Admitted(d, e, now) ==> r == StepResult(d, [])
    // an admitted sample always becomes the new baseline, fired or not
    ensures Admitted(d, e, now) ==> r.detector.lastBeta == e.beta && r.detector.lastGamma == e.gamma && r.detector.lastTime == Some(now)
    // the baseline stays one snapshot
    ensures BaselineConsistent(d) ==> BaselineConsistent(r.detector)
    // bootstrap notifies no one
    ensures !Seeded(d) ==> r.sent == []
    // the cooldown only moves when the sample fires, and then to now + cooldownMs
    ensures r.detector.cooldownUntil == if Fires(d, cfg, e, now) then now as real + cfg.cooldownMs else d.cooldownUntil
    // with a non-negative cooldown the silence window never moves backwards
    ensures cfg.cooldownMs >= 0.0 ==> r.detector.cooldownUntil >= d.cooldownUntil
  {
    if e.beta.None? || e.gamma.None? then StepResult(d, [])
    else if (now as real) < d.cooldownUntil then StepResult(d, [])
    else
      var beta, gamma := e.beta.value, e.gamma.value;
      if d.lastBeta.None? then
        StepResult(Detector(Some(beta), Some(gamma), Some(now), d.cooldownUntil), [])
      else
        var dt := now - d.lastTime.GetOr(now);
        var diffBeta := Abs(beta - d.lastBeta.value);
        var diffGamma := Abs(gamma - d.lastGamma.GetOr(0.0));
        var toReaders := Broadcast(readers, Reading(e.alpha, beta, gamma, dt, diffBeta, diffGamma));
        if (dt as real) < cfg.timeThresholdMs && (diffBeta > cfg.angleThreshold || diffGamma > cfg.angleThreshold) then
          StepResult(Detector(Some(beta), Some(gamma), Some(now), now as real + cfg.cooldownMs),
                     toReaders + Broadcast(tilters, Tilt(diffBeta, diffGamma)))
        else
          StepResult(Detector(Some(beta), Some(gamma), Some(now), d.cooldownUntil), toReaders)
  }

  /** Under the baseline invariant the `?? now` fallback and the `null` coercion are
      never used: the deltas are taken against the recorded baseline. */
  lemma DeltasUseBaseline(d: Detector, e: Sample, now: int)
    requires BaselineConsistent(d) && Seeded(d) && Complete(e)
    ensures Dt(d, now) == now - d.lastTime.value
    ensures ReadingOf(d, e, now).diffBeta == Abs(e.beta.value - d.lastBeta.value)
    ensures ReadingOf(d, e, now).diffGamma == Abs(e.gamma.value - d.lastGamma.value)
  {
  }

  /** Every sample listener is told about every admitted sample on a seeded detector,
      exactly once, before any quick-tilt listener; a throwing listener does not change
      this. No listener receives any payload other than the reading and the tilt, and
      nothing beyond one call per sample listener and, on a fire, one per quick-tilt
      listener is sent. */
  lemma {:induction false} ReadersNotifiedOnce(d: Detector, cfg: Config, readers: seq<Listener>, tilters: seq<Listener>, e: Sample, now: int, l: Listener)
    requires NoDuplicates(readers)
    requires Admitted(d, e, now) && Seeded(d)
    ensures Received(Step(d, cfg, readers, tilters, e, now).sent, l, ReadingOf(d, e, now)) == if l in readers then 1 else 0
    ensures forall q :: q != ReadingOf(d, e, now) && q != TiltOf(d, e) ==> Received(Step(d, cfg, readers, tilters, e, now).sent, l, q) == 0
    ensures |Step(d, cfg, readers, tilters, e, now).sent| == |readers| + (if Fires(d, cfg, e, now) then |tilters| else 0)
    ensures Step(d, cfg, readers, tilters, e, now).sent[..|readers|] == Broadcast(readers, ReadingOf(d, e, now))
  {
    var p := ReadingOf(d, e, now);
    var t := TiltOf(d, e);
    var sent := Step(d, cfg, readers, tilters, e, now).sent;
    BroadcastDeliversOnce(readers, p, l, p);
    forall q | q != p && q != t
      ensures Received(sent, l, q) == 0
    {
      BroadcastOnlyItsPayload(readers, p, l, q);
      if Fires(d, cfg, e, now) {
        ReceivedAppend(Broadcast(readers, p), Broadcast(tilters, t), l, q);
        BroadcastOnlyItsPayload(tilters, t, l, q);
      }
    }
    if Fires(d, cfg, e, now) {
      ReceivedAppend(Broadcast(readers, p), Broadcast(tilters, t), l, p);
      BroadcastOnlyItsPayload(tilters, t, l, p);
      assert sent[..|readers|] == Broadcast(readers, p);
    } else {
      assert sent[..|readers|] == sent;
    }
  }

  /** A quick-tilt listener receives the tilt payload exactly once if the sample fires
      and never otherwise: the fire test holds iff the listeners hear of it. */
  lemma {:induction false} TiltersNotifiedIffFires(d: Detector, cfg: Config, readers: seq<Listener>, tilters: seq<Listener>, e: Sample, now: int, l: Listener)
    requires NoDuplicates(tilters)
    requires Complete(e)
    ensures Received(Step(d, cfg, readers, tilters, e, now).sent, l, TiltOf(d, e)) == if Fires(d, cfg, e, now) && l in tilters then 1 else 0
  {
    var t := TiltOf(d, e);
    if Admitted(d, e, now) && Seeded(d) {
      var p := ReadingOf(d, e, now);
      BroadcastOnlyItsPayload(readers, p, l, t);
      if Fires(d, cfg, e, now) {
        ReceivedAppend(Broadcast(readers, p), Broadcast(tilters, t), l, t);
        BroadcastDeliversOnce(tilters, t, l, t);
      }
    }
  }

  /** The boundaries are strict: a change exactly at the angle threshold, or a sample
      exactly at the time threshold, does not fire. */
  lemma ThresholdsAreStrict(d: Detector, cfg: Config, e: Sample, now: int)
    requires Admitted(d, e, now) && Seeded(d)
    ensures Diff(e.beta.value, d.lastBeta) <= cfg.angleThreshold && Diff(e.gamma.value, d.lastGamma) <= cfg.angleThreshold ==> !Fires(d, cfg, e, now)
    ensures (Dt(d, now) as real) >= cfg.timeThresholdMs ==> !Fires(d, cfg, e, now)
    ensures (Dt(d, now) as real) < cfg.timeThresholdMs && Diff(e.beta.value, d.lastBeta) > cfg.angleThreshold ==> Fires(d, cfg, e, now)
  {
  }

  /** A timestamped sample. */
  datatype Event = Event(sample: Sample, now: int)

  /** A stream of samples through the detector; the notifications of each step follow
      those of the step before. */
  function Run(d: Detector, cfg: Config, readers: seq<Listener>, tilters: seq<Listener>, events: seq<Event>): (r: StepResult)
    ensures BaselineConsistent(d) ==> BaselineConsistent(r.detector)
    ensures cfg.cooldownMs >= 0.0 ==> r.detector.cooldownUntil >= d.cooldownUntil
    ensures Seeded(d) ==> Seeded(r.detector)
    decreases |events|
  {
    if events == [] then StepResult(d, [])
    else
      var first := Step(d, cfg, readers, tilters, events[0].sample, events[0].now);
      var rest := Run(first.detector, cfg, readers, tilters, events[1..]);
      StepResult(rest.detector, first.sent + rest.sent)
  }

  /** The cooldown is a full silence window: samples stamped before `cooldownUntil`
      change nothing, the baseline included, and notify no one. */
  lemma {:induction false} CooldownSilence(d: Detector, cfg: Config, readers: seq<Listener>, tilters: seq<Listener>, events: seq<Event>)
    requires forall i :: 0 <= i < |events| ==> (events[i].now as real) < d.cooldownUntil
    ensures Run(d, cfg, readers, tilters, events) == StepResult(d, [])
    decreases |events|
  {
    if events != [] {
      CooldownSilence(d, cfg, readers, tilters, events[1..]);
    }
  }

  /** Debounce: after a fire at time `now`, every sample before `now + cooldownMs` is
      dropped, so no second quick tilt can fire inside that window. */
  lemma NoRefireDuringCooldown(d: Detector, cfg: Config, readers: seq<Listener>, tilters: seq<Listener>, e: Sample, now: int, later: seq<Event>)
    requires Fires(d, cfg, e, now)
    requires forall i :: 0 <= i < |later| ==> (later[i].now as real) < now as real + cfg.cooldownMs
    ensures var fired := Step(d, cfg, readers, tilters, e, now).detector;
            Run(fired, cfg, readers, tilters, later) == StepResult(fired, [])
  {
  }

  /** The first sample on an unseeded detector never fires, whatever its angles: it
      only seeds the baseline. */
  lemma BootstrapNeverFires(d: Detector, cfg: Config, readers: seq<Listener>, tilters: seq<Listener>, e: Sample, now: int)
    requires !Seeded(d)
    ensures !Fires(d, cfg, e, now)
    ensures Step(d, cfg, readers, tilters, e, now).sent == []
    ensures Admitted(d, e, now) ==> Step(d, cfg, readers, tilters, e, now).detector == Detector(e.beta, e.gamma, Some(now), d.cooldownUntil)
  {
  }

  /** The clock is not clamped: a sample stamped before its baseline has a negative
      `dt`, which is below any positive time threshold, so a large change fires. */
  lemma NegativeDtFires()
    ensures var d := Detector(Some(0.0), Some(0.0), Some(1000), 0.0);
            var e := Sample(None, Some(40.0), Some(0.0));
            Dt(d, 900) == -100 && Fires(d, DefaultConfig, e, 900)
  {
  }

  /** Enable, then samples (0, 0) at 0, (30, 0) at 100, (0, 0) at 300 and (0, 0) at 650
      with the default thresholds: the second fires and opens a cooldown up to 600, the
      third is dropped, the fourth is diffed against (30, 0) at 100 and does not fire. */
  lemma DefaultScenario(reader: Listener, tilter: Listener)
    ensures var events := [Event(Sample(None, Some(0.0), Some(0.0)), 0),
                           Event(Sample(None, Some(30.0), Some(0.0)), 100),
                           Event(Sample(None, Some(0.0), Some(0.0)), 300),
                           Event(Sample(None, Some(0.0), Some(0.0)), 650)];
            Run(Unseeded, DefaultConfig, [reader], [tilter], events)
              == StepResult(Detector(Some(0.0), Some(0.0), Some(650), 600.0),
                            [Delivery(reader, Reading(None, 30.0, 0.0, 100, 30.0, 0.0)),
                             Delivery(tilter, Tilt(30.0, 0.0)),
                             Delivery(reader, Reading(None, 0.0, 0.0, 550, 30.0, 0.0))])
  {
  }
}
