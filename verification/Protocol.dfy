/** Share submission: miner threads and one network thread over a shared job, a bounded queue and
    counters, as atomic steps. Everything here is a value; ShareQueue holds the code of the shared
    operations. */
module Protocol {
  import opened Suffix
  import opened HexText

  const SUBMIT_QUEUE_MAX: nat := 32
  const MINIBLOCK_SIZE: nat := 48
  const NONCE_OFFSET: nat := 43

  datatype Option<T> = None | Some(value: T)

  /** What the model leaves open: which hashed blobs meet a difficulty. */
  datatype Config = Config(meets: (seq<Byte>, int) -> bool)

  /** A job frame after JSON extraction; fields of work only. */
  datatype Content = Content(jobId: string, blobHex: string, height: int, difficulty: int)

  /** The work bytes of a job; zeros before the first. */
  function WorkBytes(c: Content): (w: seq<Byte>)
    ensures |w| == MINIBLOCK_SIZE
  {
    if |c.blobHex| != 2 * MINIBLOCK_SIZE then seq(MINIBLOCK_SIZE, _ => 0) else FromHex(c.blobHex)
  }

  datatype Snapshot = Snapshot(epoch: nat, jobId: string, blob: seq<Byte>, difficulty: int)

  datatype Share = Share(id: nat, jobId: string, blob: seq<Byte>, epoch: nat)

  datatype Item = Item(share: Share, ticket: nat)

  /** A share on the wire, with the epoch, session and last job frame of the moment it was sent. */
  datatype Sent = Sent(item: Item, epoch: nat, session: nat, frame: Option<Content>)

  /** Shared state. The last line is history that the code does not keep: the job of every epoch, the
      find behind every queue ticket, the last frame of the session, what was sent, and how many items
      each failed send left behind. */
  datatype Shared = Shared(
    job: Content, epoch: nat, connected: bool, hasJob: bool, queue: seq<Item>,
    found: nat, enqueued: nat, staleDrops: nat, submitDrops: nat, submitted: nat, sendFails: nat,
    jobs: seq<Content>, finds: seq<nat>, session: nat, frame: Option<Content>, wire: seq<Sent>, behind: seq<nat>)

  const NO_JOB: Content := Content("", "", 0, 0)

  const START: Shared :=
    Shared(NO_JOB, 0, false, false, [], 0, 0, 0, 0, 0, 0, [NO_JOB], [], 0, None, [], [])

  // ---------- shared operations ----------

  /** Evicts the oldest entry of a full queue, then appends. */
  function SubmitEnqueue(g: Shared, share: Share): Shared {
    var g1 := if |g.queue| >= SUBMIT_QUEUE_MAX then g.(queue := g.queue[1..], submitDrops := g.submitDrops + 1) else g;
    g1.(queue := g1.queue + [Item(share, g.enqueued)], enqueued := g.enqueued + 1, finds := g.finds + [share.id])
  }

  function ClearQueue(g: Shared): Shared {
    g.(staleDrops := g.staleDrops + |g.queue|, queue := [])
  }

  predicate WellFormed(c: Content) {
    c.blobHex != "" && c.jobId != "" && |c.blobHex| == 2 * MINIBLOCK_SIZE
  }

  /** A well-formed frame replaces the job; the epoch advances only when some field differs. */
  function HandleJob(g: Shared, c: Content): Shared {
    if !WellFormed(c) then g
    else
      var changed := c.blobHex != g.job.blobHex || c.jobId != g.job.jobId || c.height != g.job.height
                     || c.difficulty != g.job.difficulty;
      var g1 := g.(job := c, hasJob := true, frame := Some(c));
      if changed then g1.(epoch := g.epoch + 1, jobs := g.jobs + [c]) else g1
  }

  function DropStale(g: Shared): Shared {
    g.(staleDrops := g.staleDrops + 1)
  }

  function Transmit(g: Shared, item: Item): Shared {
    g.(submitted := g.submitted + 1, wire := g.wire + [Sent(item, g.epoch, g.session, g.frame)])
  }

  function SendFailed(g: Shared, rest: nat): Shared {
    g.(sendFails := g.sendFails + 1, behind := g.behind + [rest])
  }

  function NewSession(g: Shared): Shared {
    g.(hasJob := false, session := g.session + 1, frame := None)
  }

  // ---------- threads ----------

  datatype Miner =
    | Waiting
    | Ready
    | Mining(snap: Snapshot)
    | AtGate1(snap: Snapshot, share: Share)
    | AtGate2(snap: Snapshot, share: Share)
    | Enqueuing(snap: Snapshot, share: Share)

  datatype Net =
    | Down | ClosingToDial | Dialing | StagedCleared | Flagged | Session | Submitting
    | Swapped(batch: seq<Item>) | Sending(batch: seq<Item>, current: nat) | Closing | Disconnected

  /** lock is the miner that holds the submit mutex across its second gate and the push. */
  datatype State = State(g: Shared, miners: seq<Miner>, lock: Option<nat>, net: Net)

  datatype Step =
    | LeaveWait(t: nat) | TakeSnapshot(t: nat) | Find(t: nat, nonce: seq<Byte>) | PassGate1(t: nat) | PassGate2(t: nat)
    | Push(t: nat)
    | StartConnect | ClearForDial | DialFails | DialFailsLate | ClearStaged | ResetSession | GoOnline
    | ReadNothing | ReadJob(c: Content) | ReadError | DropWithoutJob | SwapBatch | LoadEpoch | BatchDone
    | DrainStale | SendOk | SendFail | Disconnect | ClearAfterClose

  function Holdings(n: Net): seq<Item> {
    if n.Swapped? || n.Sending? then n.batch else []
  }

  predicate IsMinerStep(step: Step) {
    step.LeaveWait? || step.TakeSnapshot? || step.Find? || step.PassGate1? || step.PassGate2? || step.Push?
  }

  /** blob with the nonce and the thread byte written in. */
  function Stamped(blob: seq<Byte>, nonce: seq<Byte>, tid: nat): (r: seq<Byte>)
    requires |blob| == MINIBLOCK_SIZE && |nonce| == 4
    ensures |r| == MINIBLOCK_SIZE && r[..NONCE_OFFSET] == blob[..NONCE_OFFSET]
  {
    blob[..NONCE_OFFSET] + nonce + [tid % 256]
  }

  /** A worker leaves its wait after seeing a connection, a job and a difficulty, at three moments; of
      these only the job's epoch lasts, so the step asks for that alone. */
  function MinerStep(cfg: Config, s: State, step: Step): State
    requires IsMinerStep(step)
  {
    if step.t >= |s.miners| then s
    else
      var m := s.miners[step.t];
      match step
      case LeaveWait(t) =>
        if m.Waiting? && s.g.epoch > 0
        then s.(miners := s.miners[t := Ready]) else s
      case TakeSnapshot(t) =>
        if m.Ready? || m.Mining?
        then s.(miners := s.miners[t := Mining(Snapshot(s.g.epoch, s.g.job.jobId, WorkBytes(s.g.job), s.g.job.difficulty))])
        else s
      case Find(t, nonce) =>
        if m.Mining? && |nonce| == 4 && |m.snap.blob| == MINIBLOCK_SIZE && cfg.meets(Stamped(m.snap.blob, nonce, t), m.snap.difficulty)
        then
          var share := Share(s.g.found, m.snap.jobId, Stamped(m.snap.blob, nonce, t), m.snap.epoch);
          s.(g := s.g.(found := s.g.found + 1), miners := s.miners[t := AtGate1(m.snap, share)])
        else s
      case PassGate1(t) =>
        if !m.AtGate1? then s
        else if s.g.epoch != m.share.epoch then s.(g := DropStale(s.g), miners := s.miners[t := Mining(m.snap)])
        else s.(miners := s.miners[t := AtGate2(m.snap, m.share)])
      case PassGate2(t) =>
        if !(m.AtGate2? && s.lock.None?) then s
        else if s.g.epoch != m.share.epoch then s.(g := DropStale(s.g), miners := s.miners[t := Mining(m.snap)])
        else s.(lock := Some(t), miners := s.miners[t := Enqueuing(m.snap, m.share)])
      case Push(t) =>
        if !m.Enqueuing? then s
        else s.(g := SubmitEnqueue(s.g, m.share), lock := None, miners := s.miners[t := Mining(m.snap)])
  }

  function NetStep(s: State, step: Step): State
    requires !IsMinerStep(step)
  {
    match step
    case StartConnect => if s.net.Down? then s.(g := s.g.(connected := false), net := ClosingToDial) else s
    case ClearForDial => if s.net.ClosingToDial? && s.lock.None? then s.(g := ClearQueue(s.g), net := Dialing) else s
    case DialFails => if s.net.Dialing? then s.(net := Down) else s
    case DialFailsLate => if s.net.Dialing? then s.(net := Closing) else s
    case ClearStaged => if s.net.Dialing? && s.lock.None? then s.(g := ClearQueue(s.g), net := StagedCleared) else s
    case ResetSession => if s.net.StagedCleared? then s.(g := NewSession(s.g), net := Flagged) else s
    case GoOnline => if s.net.Flagged? then s.(g := s.g.(connected := true), net := Session) else s
    case ReadNothing => if s.net.Session? then s.(net := Submitting) else s
    case ReadJob(c) => if s.net.Session? then s.(g := HandleJob(s.g, c), net := Submitting) else s
    case ReadError => if s.net.Session? then s.(net := Closing) else s
    case DropWithoutJob =>
      if s.net.Submitting? && !s.g.hasJob && s.lock.None? then s.(g := ClearQueue(s.g), net := Session) else s
    case SwapBatch =>
      if !(s.net.Submitting? && s.g.hasJob && s.lock.None?) then s
      else if s.g.queue == [] then s.(net := Session)
      else s.(g := s.g.(queue := []), net := Swapped(s.g.queue))
    case LoadEpoch => if s.net.Swapped? then s.(net := Sending(s.net.batch, s.g.epoch)) else s
    case BatchDone => if s.net.Sending? && s.net.batch == [] then s.(net := Session) else s
    case DrainStale =>
      if s.net.Sending? && s.net.batch != [] && s.net.batch[0].share.epoch != s.net.current
      then s.(g := DropStale(s.g), net := Sending(s.net.batch[1..], s.net.current)) else s
    case SendOk =>
      if s.net.Sending? && s.net.batch != [] && s.net.batch[0].share.epoch == s.net.current
      then s.(g := Transmit(s.g, s.net.batch[0]), net := Sending(s.net.batch[1..], s.net.current)) else s
    case SendFail =>
      if s.net.Sending? && s.net.batch != [] && s.net.batch[0].share.epoch == s.net.current
      then s.(g := SendFailed(s.g, |s.net.batch| - 1), net := Closing) else s
    case Disconnect => if s.net.Closing? then s.(g := s.g.(connected := false), net := Disconnected) else s
    case ClearAfterClose => if s.net.Disconnected? && s.lock.None? then s.(g := ClearQueue(s.g), net := Down) else s
  }

  /** One atomic step; a step that is not enabled leaves the state unchanged. */
  function Apply(cfg: Config, s: State, step: Step): State {
    if IsMinerStep(step) then MinerStep(cfg, s, step) else NetStep(s, step)
  }

  function Initial(threads: nat): State {
    State(START, seq(threads, _ => Waiting), None, Down)
  }

  /** The state after any finite interleaving of steps. */
  function Run(cfg: Config, threads: nat, steps: seq<Step>): State
    decreases |steps|
  {
    if steps == [] then Initial(threads)
    else Apply(cfg, Run(cfg, threads, steps[..|steps| - 1]), steps[|steps| - 1])
  }
}
