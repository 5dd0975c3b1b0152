/**
  The two locks of internal/verify/gate.go around one source tree: the in-process
  reader/writer gate whose waits a context can abandon, and the hold through which one
  process shares one cross-process file lock.

  What each critical section does is a function on GateState or HoldState; the classes
  are the source's own, and each method is proved against its function.  A wake channel
  is a number, and it is closed once it is no longer the gate's current one.
 */
module WorkspaceGate {
  import opened Options

  datatype GateState = GateState(readers: int, writer: bool, queued: int, wake: Option<nat>, made: nat) {
    predicate Admits(exclusive: bool) {
      !writer && if exclusive then readers == 0 else queued == 0
    }

    function Queue(exclusive: bool): GateState {
      if exclusive then this.(queued := queued + 1) else this
    }

    function Admit(exclusive: bool): GateState {
      if exclusive then this.(queued := queued - 1, writer := true) else this.(readers := readers + 1)
    }

    /** The channel a waiter parks on: the current one, or a new one. */
    function Park(): GateState {
      if wake.Some? then this else this.(wake := Some(made), made := made + 1)
    }

    function Broadcast(): GateState {
      this.(wake := None)
    }

    /** One turn of acquire's loop under the mutex. */
    function Try(exclusive: bool): GateState {
      if Admits(exclusive) then Admit(exclusive) else Park()
    }

    /** A waiter's context ended. */
    function Abandon(exclusive: bool): GateState {
      if exclusive then this.(queued := queued - 1).Broadcast() else this
    }

    function Leave(exclusive: bool): GateState {
      (if exclusive then this.(writer := false) else this.(readers := readers - 1)).Broadcast()
    }
  }

  const EMPTY_GATE := GateState(0, false, 0, None, 0)

  /** holders counts the process's checks in the tree; locked is whether unlock is set. */
  datatype HoldState = HoldState(taken: bool, holders: int, locked: bool) {
    /** The slot is held and the lock taken when this is the first holder. */
    function Join(): HoldState {
      HoldState(false, holders + 1, true)
    }

    function GiveUp(): HoldState {
      this.(taken := false)
    }

    function Drop(): HoldState {
      HoldState(false, holders - 1, locked && holders != 1)
    }
  }

  class Gate {
    var readers: int
    var writer: bool
    var queued: int
    var wake: Option<nat>
    var made: nat

    function State(): GateState
      reads this
    {
      GateState(readers, writer, queued, wake, made)
    }

    constructor ()
      ensures State() == EMPTY_GATE
    {
      readers, writer, queued, wake, made := 0, false, 0, None, 0;
    }

    /** One locked turn of acquire's loop: admitted, or the channel to wait on. */
    method Turn(exclusive: bool) returns (parked: Option<nat>)
      modifies this
      ensures State() == old(State()).Try(exclusive)
      ensures parked == if old(State()).Admits(exclusive) then None else State().wake
    {
      if exclusive && !writer && readers == 0 {
        queued := queued - 1;
        writer := true;
        return None;
      }
      if !exclusive && !writer && queued == 0 {
        readers := readers + 1;
        return None;
      }
      if wake == None {
        wake, made := Some(made), made + 1;
      }
      return wake;
    }

    /** acquire up to its first wait. */
    method Arrive(exclusive: bool) returns (parked: Option<nat>)
      modifies this
      ensures State() == old(State()).Queue(exclusive).Try(exclusive)
      ensures parked == if old(State()).Queue(exclusive).Admits(exclusive) then None else State().wake
    {
      if exclusive {
        queued := queued + 1;
      }
      parked := Turn(exclusive);
    }

    /** The ctx.Done arm of acquire's wait. */
    method Cancel(exclusive: bool)
      modifies this
      ensures State() == old(State()).Abandon(exclusive)
    {
      if exclusive {
        queued := queued - 1;
        Broadcast();
      }
    }

    method Broadcast()
      modifies this
      ensures State() == old(State()).Broadcast()
    {
      if wake != None {
        wake := None;
      }
    }
  }

  /** The function acquire returns, with its sync.Once. */
  class Leaver {
    const gate: Gate
    const exclusive: bool
    var left: bool

    constructor (gate: Gate, exclusive: bool)
      ensures this.gate == gate && this.exclusive == exclusive && !left
    {
      this.gate, this.exclusive, left := gate, exclusive, false;
    }

    /** Leaves the gate the first time, and does nothing after. */
    method Leave()
      modifies this, gate
      ensures left
      ensures gate.State() == if old(left) then old(gate.State()) else old(gate.State()).Leave(exclusive)
    {
      if left {
        return;
      }
      left := true;
      if exclusive {
        gate.writer := false;
      } else {
        gate.readers := gate.readers - 1;
      }
      gate.Broadcast();
    }
  }

  class FileHold {
    var taken: bool
    var holders: int
    var locked: bool

    function State(): HoldState
      reads this
    {
      HoldState(taken, holders, locked)
    }

    constructor ()
      ensures State() == HoldState(false, 0, false)
    {
      taken, holders, locked := false, 0, false;
    }

    /** acquire with the slot taken.  `granted` is what lockFile answers, asked only for the
        first holder; refused, it leaves nothing held. */
    method Join(granted: bool) returns (joined: bool)
      requires taken && (locked <==> holders != 0)
      modifies this
      ensures joined <==> old(holders) != 0 || granted
      ensures State() == if joined then old(State()).Join() else old(State()).GiveUp()
    {
      joined := true;
      if holders == 0 {
        if !granted {
          taken := false;
          return false;
        }
        locked := true;
      }
      holders := holders + 1;
      taken := false;
    }

    /** The function acquire returns, run once, with the slot free to take. */
    method Drop()
      requires !taken && holders > 0 && locked
      modifies this
      ensures State() == old(State()).Drop()
      ensures locked <==> holders != 0
    {
      taken := true;
      holders := holders - 1;
      if holders == 0 {
        locked := false;
      }
      taken := false;
    }
  }
}
