/**
 The control loop together with the car it drives: runs of iterations with the physical car moving
 between them, and what holds in all of them.
*/
module ElevatorRuns {
  import opened ElevatorTypes
  import opened ElevatorControl
  import opened ElevatorSafety

  /** Where the car is; `Between(f)` is between floor f and floor f + 1. */
  datatype Position = At(floor: int) | Between(lower: int)

  /** The sensor of a floor is on exactly while the car is at that floor. */
  function Sample(p: Position): int {
    if p.At? then p.floor else NO_FLOOR
  }

  /** How far the car can get between two samples: no floor is crossed without being sampled.
      Nothing in this relation keeps the car inside the shaft; that is the controller's job. */
  predicate Drive(p: Position, motor: Direction, q: Position) {
    || q == p
    || match motor
       case None => false
       case Up => q == At(if p.At? then p.floor + 1 else p.lower + 1) || (p.At? && q == Between(p.floor))
       case Down => q == At(if p.At? then p.floor - 1 else p.lower) || (p.At? && q == Between(p.floor - 1))
  }

  predicate InShaft(b: Bounds, p: Position) {
    if p.At? then b.Has(p.floor) else b.min <= p.lower < b.max
  }

  datatype World = World(car: Car, pos: Position)

  /** The car moves, then the loop makes one iteration; a failed assertion restarts the loop, an
      obstruction ends the run. */
  predicate Step(w: World, i: Inputs, w': World) {
    && Drive(w.pos, w.car.motor, w'.pos)
    && i.sensor == Sample(w'.pos)
    && match w.car.Iterate(i)
       case Continue(c) => w'.car == c
       case Failed(c) => w'.car == c.Restart()
       case Obstructed(_) => false
  }

  predicate Run(ws: seq<World>, inputs: seq<Inputs>) {
    |ws| == |inputs| + 1 && forall k :: 0 <= k < |inputs| ==> Step(ws[k], inputs[k], ws[k + 1])
  }

  ghost predicate Contained(w: World) {
    && Safe(w.car)
    && InShaft(w.car.b, w.pos)
    && (w.pos.At? && w.car.motor != None ==> w.car.es.lastFloor == w.pos.floor)
  }

  lemma StepContained(w: World, i: Inputs, w': World)
    requires Contained(w) && Step(w, i, w')
    ensures Contained(w') && w'.car.b == w.car.b
  {
    assert InShaft(w.car.b, w'.pos);
    IterateSafe(w.car, i);
    if w.car.Iterate(i).Failed? {
      InitializeSafe(w.car.Iterate(i).car.Halt());
    }
  }

  lemma {:induction false} ContainedAlways(ws: seq<World>, inputs: seq<Inputs>, k: nat)
    requires Run(ws, inputs) && Contained(ws[0]) && k < |ws|
    ensures Contained(ws[k]) && ws[k].car.b == ws[0].car.b
  {
    if k > 0 {
      var w, i, w' := ws[k - 1], inputs[k - 1], ws[k - 1 + 1];
      ContainedAlways(ws, inputs, k - 1);
      StepContained(w, i, w');
    }
  }

  /** The loop is entered with the car halted anywhere in the shaft, at a floor or not, and with a
      possibly outdated idea of where it is. In every run from there, with stop presses, hall
      commands, failed assertions and restarts in any order: the state is safe after every
      iteration, and the car never leaves the shaft. */
  lemma RunsAreSafe(c: Car, ws: seq<World>, inputs: seq<Inputs>, k: nat)
    requires Run(ws, inputs) && k < |ws|
    requires Parked(c) && ws[0].car == c.Initialize() && InShaft(c.b, ws[0].pos)
    ensures Safe(ws[k].car) && InShaft(c.b, ws[k].pos)
  {
    InitializeSafe(c);
    ContainedAlways(ws, inputs, k);
  }
}
