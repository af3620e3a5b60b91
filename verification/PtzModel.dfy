/** Commands, settings and per-camera state of the PTZ dispatch governor, and the effect of each
    critical section of the controller on them. */
module PtzModel {
  import opened KeyOrder

  type CameraId = string

  datatype Command = Command(pan: real, tilt: real, zoom: real, stop: bool, timeoutSeconds: nat)

  const NO_COMMAND := Command(0.0, 0.0, 0.0, false, 0)
  const STOP := NO_COMMAND.(stop := true)

  /** Equality of commands as the controller tests it: the timeout does not take part. */
  predicate Same(a: Command, b: Command) {
    a.stop == b.stop && a.pan == b.pan && a.tilt == b.tilt && a.zoom == b.zoom
  }

  datatype Settings = Settings(keepalive: bool, authCache: bool, moveTimeoutSeconds: nat,
                               stopImmediate: bool, minIntervalMs: nat)

  datatype CamState = CamState(held: bool, heldCmd: Command, stopPending: bool,
                               lastDispatched: Command, hasDispatched: bool)

  const NEW_CAMERA := CamState(false, NO_COMMAND, false, NO_COMMAND, false)

  /** The fields guarded by the controller's mutex. */
  datatype Controller = Controller(cams: map<CameraId, CamState>, settings: Settings,
                                   shutdown: bool, dispatching: nat)

  /** A held move that was never dispatched, or differs from the one that was. */
  predicate NeedsMove(s: CamState) {
    s.held && (!s.hasDispatched || !Same(s.heldCmd, s.lastDispatched))
  }

  predicate HasWorkOn(s: CamState) {
    s.stopPending || NeedsMove(s)
  }

  function Stops(c: Controller): set<CameraId> {
    set id | id in c.cams && c.cams[id].stopPending
  }

  function Fresh(c: Controller): set<CameraId> {
    set id | id in c.cams && NeedsMove(c.cams[id])
  }

  /** The cameras with something to dispatch. */
  function Work(c: Controller): set<CameraId> {
    set id | id in c.cams && HasWorkOn(c.cams[id])
  }

  /** What `WaitIdle` waits for. */
  predicate Idle(c: Controller) {
    c.dispatching == 0 && Work(c) == {}
  }

  function CamOf(c: Controller, id: CameraId): CamState {
    if id in c.cams then c.cams[id] else NEW_CAMERA
  }

  function AfterMove(c: Controller, id: CameraId, pan: real, tilt: real, zoom: real): Controller {
    var cmd := Command(pan, tilt, zoom, false, c.settings.moveTimeoutSeconds);
    c.(cams := c.cams[id := CamState(true, cmd, false, CamOf(c, id).lastDispatched, false)])
  }

  function AfterStop(c: Controller, id: CameraId): Controller {
    c.(cams := c.cams[id := CamState(false, NO_COMMAND, true, CamOf(c, id).lastDispatched, false)])
  }

  /** Counts of dispatches in flight are 32-bit unsigned. */
  const COUNT_LIMIT := 0x1_0000_0000

  function Increment(n: nat): nat { (n + 1) % COUNT_LIMIT }

  function Decrement(n: nat): nat { if n == 0 then COUNT_LIMIT - 1 else n - 1 }

  function AfterStopPick(c: Controller, id: CameraId): Controller
    requires id in c.cams
  {
    c.(cams := c.cams[id := c.cams[id].(stopPending := false, held := false, hasDispatched := false)],
       dispatching := Increment(c.dispatching))
  }

  function AfterMovePick(c: Controller, id: CameraId): Controller
    requires id in c.cams
  {
    c.(cams := c.cams[id := c.cams[id].(lastDispatched := c.cams[id].heldCmd, hasDispatched := true)],
       dispatching := Increment(c.dispatching))
  }

  function AfterFinish(c: Controller): Controller {
    c.(dispatching := Decrement(c.dispatching))
  }

  const NS_PER_MS := 1_000_000
  const NS_PER_S := 1_000_000_000

  /** The floor wait goes round again: the next slot is still ahead and no stop is queued.
      A `lastMove` of zero is the clock's epoch, which the code reads as "no move yet". */
  predicate FloorBlocks(c: Controller, settings: Settings, lastMove: nat, now: nat) {
    lastMove != 0 && now < lastMove + settings.minIntervalMs * NS_PER_MS && Stops(c) == {}
  }

  /** The condition that ends a bounded move's hold early. */
  predicate HoldEnds(c: Controller, id: CameraId, cmd: Command) {
    id !in c.cams || !c.cams[id].held || c.cams[id].stopPending || !Same(c.cams[id].heldCmd, cmd)
  }

  /** The test made after the hold timed out, before the move is fired again. */
  predicate Refires(c: Controller, id: CameraId, cmd: Command) {
    id in c.cams && c.cams[id].held && Same(c.cams[id].heldCmd, cmd) && !c.cams[id].stopPending
  }
}
