// The gateway's capture/publish loop, observed from outside: which events
// one iteration produces, what a run of iterations produces, and the
// startup order (initial configuration, then capture).

module CaptureLoop {
  import opened Wrappers
  import opened Status
  import opened Config
  import opened Driver
  import opened Reconciler

  /** The two topics the loop publishes on. */
  datatype Topic = FrameTopic | TimestampTopic

  /** What the loop does, in the order it does it: grab a frame, publish,
      poll for a request with a timeout in milliseconds, serve a request,
      and at startup the configuration calls and the start of capture. */
  datatype Event =
    | Grab
    | Publish(topic: Topic)
    | Poll(millis: nat)
    | Serve
    | Configure(call: Call)
    | StartCapture

  /** What one iteration meets: whether the grabbed frame holds no data,
      and whether a request is waiting when the loop polls. */
  datatype Observation = Observation(frameEmpty: bool, pending: bool)

  /** One iteration of the loop: grab; publish the frame then its timestamp
      when the frame holds data; poll without waiting; serve what arrived. */
  function Iteration(o: Observation): (events: seq<Event>)
    ensures |events| >= 2 && events[0] == Grab
    ensures o.pending ==> events[|events| - 1] == Serve && events[|events| - 2] == Poll(0)
    ensures !o.pending ==> events[|events| - 1] == Poll(0)
  {
    match o
    case Observation(true, false) => [Grab, Poll(0)]
    case Observation(true, true) => [Grab, Poll(0), Serve]
    case Observation(false, false) => [Grab, Publish(FrameTopic), Publish(TimestampTopic), Poll(0)]
    case Observation(false, true) => [Grab, Publish(FrameTopic), Publish(TimestampTopic), Poll(0), Serve]
  }

  /** Recover what an iteration met from the events it produced; `None`
      for a sequence no iteration produces. */
  function Observe(events: seq<Event>): Option<Observation> {
    if |events| < 2 || events[0] != Grab then None
    else
      var frame := |events| >= 4 && events[1] == Publish(FrameTopic) && events[2] == Publish(TimestampTopic);
      var poll := if frame then 3 else 1;
      if events[poll] != Poll(0) then None
      else if |events| == poll + 1 then Some(Observation(!frame, false))
      else if |events| == poll + 2 && events[poll + 1] == Serve then Some(Observation(!frame, true))
      else None
  }

  /** The events of an iteration determine what it met. */
  lemma ObserveIteration(o: Observation)
    ensures Observe(Iteration(o)) == Some(o)
  {
  }

  /** Exactly the sequences `Observe` accepts are iterations. */
  lemma IterationOfObserve(events: seq<Event>)
    ensures Observe(events).Some? ==> Iteration(Observe(events).value) == events
  {
    if Observe(events).Some? {
      var o := Observe(events).value;
      if o.frameEmpty {
        assert events[..2] == [Grab, Poll(0)];
        if o.pending {
          assert events == events[..2] + [Serve];
        } else {
          assert events == events[..2];
        }
      } else {
        assert events[..4] == [Grab, Publish(FrameTopic), Publish(TimestampTopic), Poll(0)];
        if o.pending {
          assert events == events[..4] + [Serve];
        } else {
          assert events == events[..4];
        }
      }
    }
  }

  /** A frame publish is immediately followed by its timestamp publish, and
      the only poll does not wait. */
  lemma IterationShape(o: Observation)
    ensures forall i :: 0 <= i < |Iteration(o)| && Iteration(o)[i] == Publish(FrameTopic) ==>
      i + 1 < |Iteration(o)| && Iteration(o)[i + 1] == Publish(TimestampTopic)
    ensures forall t :: t != 0 ==> Poll(t) !in Iteration(o)
  {
    match o
    case Observation(true, false) =>
    case Observation(true, true) =>
    case Observation(false, false) =>
    case Observation(false, true) =>
  }

  /** The loop run over a sequence of iterations. */
  function Run(obs: seq<Observation>): (events: seq<Event>)
    decreases |obs|
  {
    if obs == [] then [] else Iteration(obs[0]) + Run(obs[1..])
  }

  /** Number of iterations that met a frame with data. */
  function Frames(obs: seq<Observation>): nat
    decreases |obs|
  {
    if obs == [] then 0 else (if obs[0].frameEmpty then 0 else 1) + Frames(obs[1..])
  }

  /** Number of iterations that met a waiting request. */
  function Requests(obs: seq<Observation>): nat
    decreases |obs|
  {
    if obs == [] then 0 else (if obs[0].pending then 1 else 0) + Requests(obs[1..])
  }

  /** How often each loop event occurs in one iteration: a frame and a
      timestamp publish exactly when the frame holds data, one poll, and a
      serve exactly when a request was waiting. */
  lemma IterationCounts(o: Observation)
    ensures multiset(Iteration(o))[Publish(FrameTopic)] == if o.frameEmpty then 0 else 1
    ensures multiset(Iteration(o))[Publish(TimestampTopic)] == if o.frameEmpty then 0 else 1
    ensures multiset(Iteration(o))[Poll(0)] == 1
    ensures multiset(Iteration(o))[Serve] == if o.pending then 1 else 0
  {
    match o
    case Observation(true, false) =>
      assert multiset(Iteration(o)) == multiset{Grab, Poll(0)};
    case Observation(true, true) =>
      assert multiset(Iteration(o)) == multiset{Grab, Poll(0), Serve};
    case Observation(false, false) =>
      assert multiset(Iteration(o)) == multiset{Grab, Publish(FrameTopic), Publish(TimestampTopic), Poll(0)};
    case Observation(false, true) =>
      assert multiset(Iteration(o)) == multiset{Grab, Publish(FrameTopic), Publish(TimestampTopic), Poll(0), Serve};
  }

  /** Over any run, each frame publish is immediately followed by its
      timestamp publish. */
  lemma {:induction false} RunFramePairs(obs: seq<Observation>)
    ensures forall i :: 0 <= i < |Run(obs)| && Run(obs)[i] == Publish(FrameTopic) ==>
      i + 1 < |Run(obs)| && Run(obs)[i + 1] == Publish(TimestampTopic)
    decreases |obs|
  {
    if obs != [] {
      RunFramePairs(obs[1..]);
      IterationShape(obs[0]);
      var head := Iteration(obs[0]);
      var tail := Run(obs[1..]);
      var all := Run(obs);
      assert all == head + tail;
      forall i | 0 <= i < |all| && all[i] == Publish(FrameTopic)
        ensures i + 1 < |all| && all[i + 1] == Publish(TimestampTopic)
      {
        if i < |head| {
          assert head[i] == Publish(FrameTopic);
          assert all[i + 1] == head[i + 1];
        } else {
          assert tail[i - |head|] == Publish(FrameTopic);
          assert all[i + 1] == tail[i + 1 - |head|];
        }
      }
    }
  }

  /** Over any run, one frame and one timestamp are published per frame
      with data, one poll happens per iteration, and one request is served
      per request that was waiting. */
  lemma {:induction false} RunCounts(obs: seq<Observation>)
    ensures multiset(Run(obs))[Publish(FrameTopic)] == Frames(obs)
    ensures multiset(Run(obs))[Publish(TimestampTopic)] == Frames(obs)
    ensures multiset(Run(obs))[Poll(0)] == |obs|
    ensures multiset(Run(obs))[Serve] == Requests(obs)
    decreases |obs|
  {
    if obs != [] {
      RunCounts(obs[1..]);
      IterationCounts(obs[0]);
      var head := Iteration(obs[0]);
      var tail := Run(obs[1..]);
      assert Run(obs) == head + tail;
      assert multiset(Run(obs)) == multiset(head) + multiset(tail);
    }
  }

  /** A run that only ever grabs empty frames publishes nothing. */
  lemma {:induction false} EmptyFramesNeverPublish(obs: seq<Observation>)
    requires forall i :: 0 <= i < |obs| ==> obs[i].frameEmpty
    ensures Frames(obs) == 0
    ensures Publish(FrameTopic) !in Run(obs) && Publish(TimestampTopic) !in Run(obs)
    decreases |obs|
  {
    RunCounts(obs);
    if obs != [] {
      EmptyFramesNeverPublish(obs[1..]);
    }
  }

  /** The events of a start: the configuration calls made, the start of
      capture, then the loop. Nothing here depends on the status the
      configuration returned. */
  function Boot(configured: seq<Call>, obs: seq<Observation>): (events: seq<Event>)
  {
    Configured(configured) + [StartCapture] + Run(obs)
  }

  /** Configuration calls as events. */
  function Configured(calls: seq<Call>): (events: seq<Event>)
    ensures |events| == |calls|
    ensures forall i :: 0 <= i < |calls| ==> events[i] == Configure(calls[i])
    decreases |calls|
  {
    if calls == [] then [] else [Configure(calls[0])] + Configured(calls[1..])
  }

  /** A start lists the configuration calls in order, then the start of
      capture, then the loop. */
  lemma BootShape(configured: seq<Call>, obs: seq<Observation>)
    ensures |Boot(configured, obs)| == |configured| + 1 + |Run(obs)|
    ensures forall i :: 0 <= i < |configured| ==> Boot(configured, obs)[i] == Configure(configured[i])
    ensures Boot(configured, obs)[|configured|] == StartCapture
    ensures Boot(configured, obs)[|configured| + 1..] == Run(obs)
  {
    var events := Boot(configured, obs);
    var pre := Configured(configured);
    assert forall k :: 0 <= k < |configured| ==> events[k] == pre[k];
    assert events[|configured| + 1..] == Run(obs);
  }

  /** Past the start of capture, a start consists of loop events only. */
  lemma BootTail(configured: seq<Call>, obs: seq<Observation>)
    ensures forall k :: |configured| < k < |Boot(configured, obs)| ==>
      Boot(configured, obs)[k] != StartCapture && !Boot(configured, obs)[k].Configure?
  {
    var events := Boot(configured, obs);
    var run := Run(obs);
    var front := Configured(configured) + [StartCapture];
    RunNoStartup(obs);
    assert events == front + run;
    forall k | |front| <= k < |events| ensures events[k] != StartCapture && !events[k].Configure? {
      assert events[k] == run[k - |front|];
    }
  }

  /** Capture is started exactly once, after every configuration call:
      the start of capture sits at one place only, behind all of them. */
  lemma BootOrder(configured: seq<Call>, obs: seq<Observation>)
    ensures forall k :: 0 <= k < |Boot(configured, obs)| && Boot(configured, obs)[k].Configure? ==> k < |configured|
    ensures forall k :: 0 <= k < |Boot(configured, obs)| && Boot(configured, obs)[k] == StartCapture ==> k == |configured|
  {
    BootShape(configured, obs);
    BootTail(configured, obs);
  }

  /** The process as started: the initial configuration is applied through
      the reconciler and its status ignored; capture then starts; then the
      loop runs. Returns the events and the driver state the configuration
      left. */
  function Startup<S>(d: Driver<S>, st: S, initial: CameraConfig, obs: seq<Observation>): (seq<Event>, S)
  {
    var applied := SetConfiguration(d, st, initial);
    (Boot(applied.log, obs), applied.state)
  }

  /** Capture starts whatever status the initial configuration returned:
      the events are the reconciler's calls, one start of capture after
      all of them, then the loop. */
  lemma StartupOrder<S>(d: Driver<S>, st: S, initial: CameraConfig, obs: seq<Observation>)
    ensures var log := SetConfiguration(d, st, initial).log;
      var events := Startup(d, st, initial, obs).0;
      && |events| == |log| + 1 + |Run(obs)|
      && (forall i :: 0 <= i < |log| ==> events[i] == Configure(log[i]))
      && events[|log|] == StartCapture
      && events[|log| + 1..] == Run(obs)
      && forall k :: 0 <= k < |events| && events[k] == StartCapture ==> k == |log|
    ensures Startup(d, st, initial, obs).1 == SetConfiguration(d, st, initial).state
  {
    var log := SetConfiguration(d, st, initial).log;
    BootShape(log, obs);
    BootOrder(log, obs);
  }

  /** The loop itself never configures and never restarts capture. */
  lemma {:induction false} RunNoStartup(obs: seq<Observation>)
    ensures StartCapture !in Run(obs)
    ensures forall e :: e in Run(obs) ==> !e.Configure?
    decreases |obs|
  {
    if obs != [] {
      RunNoStartup(obs[1..]);
      IterationLoopOnly(obs[0]);
      assert Run(obs) == Iteration(obs[0]) + Run(obs[1..]);
    }
  }

  /** An iteration holds loop events only. */
  lemma IterationLoopOnly(o: Observation)
    ensures forall e :: e in Iteration(o) ==> e == Grab || e.Publish? || e.Poll? || e == Serve
  {
    match o
    case Observation(true, false) =>
    case Observation(true, true) =>
    case Observation(false, false) =>
    case Observation(false, true) =>
  }
}
