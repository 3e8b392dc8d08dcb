// The Spinnaker driver's restart guard: a mutation that must not run
// while the camera is acquiring is wrapped in stop / mutate / restart.

module RestartGuard {
  import opened Status

  /** What the guard does to the camera, in order. */
  datatype Step = StopCapture | Mutate | StartCapture

  /** The guard's outcome: the status it returns and the steps it took. */
  datatype Guarded = Guarded(status: Status, steps: seq<Step>)

  /** `control_capture`: a camera that is capturing is stopped before the
      mutation and started again after it, whatever status the mutation
      returned; an idle camera only sees the mutation. The mutation's status
      is returned unchanged. */
  function ControlCapture<P>(capturing: bool, mutation: P -> Status, value: P): (r: Guarded)
    ensures r.status == mutation(value)
    ensures multiset(r.steps)[Mutate] == 1
    ensures !capturing ==> StopCapture !in r.steps && StartCapture !in r.steps
    ensures capturing ==> r.steps == [StopCapture, Mutate, StartCapture]
  {
    var status := mutation(value);
    Guarded(status, if capturing then [StopCapture, Mutate, StartCapture] else [Mutate])
  }

  /** The capture flag after `steps`, when stopping clears it and starting
      sets it. */
  function Replay(capturing: bool, steps: seq<Step>): bool
    decreases |steps|
  {
    if steps == [] then capturing
    else Replay(match steps[0] case StopCapture => false case StartCapture => true case Mutate => capturing, steps[1..])
  }

  /** The guard leaves the capture flag as it found it, and the mutation
      always runs while capture is stopped. */
  lemma ControlCaptureFlag<P>(capturing: bool, mutation: P -> Status, value: P)
    ensures var steps := ControlCapture(capturing, mutation, value).steps;
      Replay(capturing, steps) == capturing
    ensures var steps := ControlCapture(capturing, mutation, value).steps;
      forall i :: 0 <= i < |steps| && steps[i] == Mutate ==> !Replay(capturing, steps[..i])
  {
    var steps := ControlCapture(capturing, mutation, value).steps;
    if capturing {
      assert steps[..0] == [];
      assert steps[..1] == [StopCapture];
      assert steps[..2] == [StopCapture, Mutate];
      assert steps[1..] == [Mutate, StartCapture];
      assert [StartCapture][1..] == [];
      assert Replay(false, [StartCapture]) == Replay(true, []);
      assert [Mutate, StartCapture][1..] == [StartCapture];
      assert Replay(false, [Mutate, StartCapture]) == Replay(false, [StartCapture]);
      assert Replay(true, steps) == Replay(false, [Mutate, StartCapture]);
    } else {
      assert steps[..0] == [];
    }
  }

  /** Whatever the mutation returns, a camera that was capturing is
      capturing again afterwards: a failing mutation does not leave it
      stopped. */
  lemma RestartDespiteFailure<P>(mutation: P -> Status, value: P)
    requires mutation(value).code != OK
    ensures ControlCapture(true, mutation, value).status == mutation(value)
    ensures var steps := ControlCapture(true, mutation, value).steps;
      steps[|steps| - 1] == StartCapture && Replay(true, steps)
  {
    ControlCaptureFlag(true, mutation, value);
  }
}
