/** The vocabulary shared by the control loop, the scheduler and the session protocol. */
module ElevatorTypes {

  // The C++ limits INT_MIN and INT_MAX; the program uses them as "no floor" and "any elevator".
  const INT_MIN: int := -0x8000_0000
  const INT_MAX: int := 0x7fff_ffff

  const NO_FLOOR: int := INT_MIN
  const NO_ID: int := INT_MIN
  const ANY_ID: int := INT_MAX

  /** An optional value. */
  datatype Maybe<+T> = Nothing | Just(value: T)

  datatype Direction = None | Up | Down

  datatype ButtonType = CallUp | CallDown | TargetFloor

  datatype Button = Button(kind: ButtonType, floor: int)

  datatype ChangeType =
    | NoChange
    | KeepAlive
    | InsideButtonPressed
    | ButtonDownPressed
    | ButtonUpPressed
    | GoingToServeUp
    | GoingToServeDown
    | Served
    | ServedUp
    | ServedDown
    | OtherChange

  datatype CommandType =
    | Empty
    | CallToFloorAndGoUp
    | CallToFloorAndGoDown
    | TurnOnLightUp
    | TurnOffLightUp
    | TurnOnLightDown
    | TurnOffLightDown

  datatype Command = Command(commandType: CommandType, target: int, floor: int)

  /** The floors of the shaft, both ends included. */
  datatype Bounds = Bounds(min: int, max: int) {
    predicate Valid() { NO_FLOOR < min < max }

    predicate Has(floor: int) { min <= floor <= max }

    predicate HasAll(floors: set<int>) { forall f <- floors :: Has(f) }
  }

  /** What an elevator broadcasts about itself; floor sets are modelled as sets of floors. */
  datatype ElevatorState = ElevatorState(
    id: int,
    timestamp: int,
    lastFloor: int,
    direction: Direction,
    stopped: bool,
    doorOpen: bool,
    inside: set<int>,
    up: set<int>,
    down: set<int>) {

    function All(): set<int> { inside + up + down }
  }

  datatype StateChange = StateChange(changeType: ChangeType, changeFloor: int, state: ElevatorState)
}
