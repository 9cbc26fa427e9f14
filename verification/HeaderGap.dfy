/** A run at whose end the identity stated beside the counters fails. */
module HeaderGap {
  import opened Suffix
  import opened Protocol
  import opened ProtocolSafety

  lemma RunStep(cfg: Config, threads: nat, steps: seq<Step>, k: nat, s: State)
    requires k < |steps| && Run(cfg, threads, steps[..k]) == s
    ensures Run(cfg, threads, steps[..k + 1]) == Apply(cfg, s, steps[k])
  {
    assert steps[..k + 1][..k] == steps[..k];
  }

  /** One find of the miner, up to the queue. */
  function QueueOne(nonce: seq<Byte>): seq<Step> { [Find(0, nonce), PassGate1(0), PassGate2(0), Push(0)] }

  function Opening(c: Content): seq<Step> {
    [StartConnect, ClearForDial, ClearStaged, ResetSession, GoOnline, ReadJob(c), SwapBatch, LeaveWait(0), TakeSnapshot(0)]
  }

  function FailedBatch(): seq<Step> { [ReadNothing, SwapBatch, LoadEpoch, SendFail, Disconnect, ClearAfterClose] }

  /** The nonces of the two finds. */
  datatype Nonces = Nonces(first: seq<Byte>, second: seq<Byte>)

  /** A session with one job, two shares of one miner in a batch, and a failed send of the first. */
  function FailingRun(c: Content, ns: Nonces): seq<Step> {
    Opening(c) + (QueueOne(ns.first) + QueueOne(ns.second)) + FailedBatch()
  }

  function FirstSnapshot(cfg: Config, c: Content): Snapshot {
    Snapshot(1, c.jobId, WorkBytes(c), c.difficulty)
  }

  function OpenedWith(c: Content): Shared {
    START.(job := c, epoch := 1, connected := true, hasJob := true, jobs := [NO_JOB, c], session := 1, frame := Some(c))
  }

  lemma DialSteps(cfg: Config, f: seq<Step>)
    requires |f| > 4 && f[0] == StartConnect && f[1] == ClearForDial && f[2] == ClearStaged && f[3] == ResetSession && f[4] == GoOnline
    ensures Run(cfg, 1, f[..5]) == State(START.(connected := true, session := 1), [Waiting], None, Session)
  {
    assert f[..0] == [];
    var s0 := State(START, [Waiting], None, Down);
    assert Run(cfg, 1, f[..0]) == s0;
    hide Run, MinerStep;
    RunStep(cfg, 1, f, 0, s0);
    RunStep(cfg, 1, f, 1, s0.(net := ClosingToDial));
    RunStep(cfg, 1, f, 2, s0.(net := Dialing));
    RunStep(cfg, 1, f, 3, s0.(net := StagedCleared));
    RunStep(cfg, 1, f, 4, s0.(g := START.(session := 1), net := Flagged));
  }

  lemma JobSteps(cfg: Config, f: seq<Step>, c: Content)
    requires WellFormed(c) && |f| > 9 && f[5] == ReadJob(c) && f[6] == SwapBatch && f[7] == LeaveWait(0) && f[8] == TakeSnapshot(0)
    requires Run(cfg, 1, f[..5]) == State(START.(connected := true, session := 1), [Waiting], None, Session)
    ensures var snap := Snapshot(1, c.jobId, WorkBytes(c), c.difficulty);
            Run(cfg, 1, f[..9]) == State(OpenedWith(c), [Mining(snap)], None, Session)
  {
    var s5 := State(START.(connected := true, session := 1), [Waiting], None, Session);
    hide Run, WorkBytes;
    JobChanges(c);
    RunStep(cfg, 1, f, 5, s5);
    hide HandleJob, WellFormed;
    RunStep(cfg, 1, f, 6, s5.(g := OpenedWith(c), net := Submitting));
    RunStep(cfg, 1, f, 7, s5.(g := OpenedWith(c)));
    RunStep(cfg, 1, f, 8, s5.(g := OpenedWith(c), miners := [Ready]));
  }

  lemma JobChanges(c: Content)
    requires WellFormed(c)
    ensures HandleJob(START.(connected := true, session := 1), c) == OpenedWith(c)
  {
  }

  /** One miner at work on the current epoch, with room in the queue, between reads of the network thread. */
  ghost predicate AtWork(s: State, snap: Snapshot) {
    && s.miners == [Mining(snap)] && s.lock.None? && s.net.Session? && s.g.hasJob && snap.epoch == s.g.epoch
    && |s.g.queue| < SUBMIT_QUEUE_MAX
  }

  ghost predicate Wins(cfg: Config, snap: Snapshot, nonce: seq<Byte>) {
    |nonce| == 4 && |snap.blob| == MINIBLOCK_SIZE && cfg.meets(Stamped(snap.blob, nonce, 0), snap.difficulty)
  }

  /** Four steps take a find of the current epoch into a queue with room. */
  lemma QueuedShare(cfg: Config, f: seq<Step>, k: nat, nonce: seq<Byte>, s: State, snap: Snapshot) returns (share: Share)
    requires k + 4 <= |f| && f[k] == Find(0, nonce) && f[k + 1] == PassGate1(0) && f[k + 2] == PassGate2(0) && f[k + 3] == Push(0)
    requires Run(cfg, 1, f[..k]) == s && AtWork(s, snap) && Wins(cfg, snap, nonce)
    ensures share.epoch == snap.epoch && Run(cfg, 1, f[..k + 4]) == s.(g := Queued(s.g, share))
  {
    hide Run, NetStep, Stamped;
    share := Share(s.g.found, snap.jobId, Stamped(snap.blob, nonce, 0), snap.epoch);
    var g := s.g.(found := s.g.found + 1);
    RunStep(cfg, 1, f, k, s);
    RunStep(cfg, 1, f, k + 1, s.(g := g, miners := [AtGate1(snap, share)]));
    RunStep(cfg, 1, f, k + 2, s.(g := g, miners := [AtGate2(snap, share)]));
    RunStep(cfg, 1, f, k + 3, s.(g := g, miners := [Enqueuing(snap, share)], lock := Some(0)));
  }

  /** The batch of two is taken out and its first send fails. */
  lemma FailingSend(cfg: Config, f: seq<Step>, k: nat, s: State)
    requires k + 4 <= |f| && f[k] == ReadNothing && f[k + 1] == SwapBatch && f[k + 2] == LoadEpoch && f[k + 3] == SendFail
    requires Run(cfg, 1, f[..k]) == s && s.net.Session? && s.lock.None? && s.g.hasJob && |s.g.queue| == 2
    requires s.g.queue[0].share.epoch == s.g.epoch
    ensures Run(cfg, 1, f[..k + 4]) == s.(g := SendFailed(s.g.(queue := []), 1), net := Closing)
  {
    hide Run, MinerStep;
    var batch, g := s.g.queue, s.g.(queue := []);
    RunStep(cfg, 1, f, k, s);
    RunStep(cfg, 1, f, k + 1, s.(net := Submitting));
    RunStep(cfg, 1, f, k + 2, s.(g := g, net := Swapped(batch)));
    RunStep(cfg, 1, f, k + 3, s.(g := g, net := Sending(batch, s.g.epoch)));
  }

  lemma ClosingSteps(cfg: Config, f: seq<Step>, k: nat, s: State)
    requires k + 2 <= |f| && f[k] == Disconnect && f[k + 1] == ClearAfterClose
    requires Run(cfg, 1, f[..k]) == s && s.net.Closing? && s.lock.None? && s.g.queue == []
    ensures var s' := Run(cfg, 1, f[..k + 2]); s' == s.(g := s.g.(connected := false), net := Down)
  {
    hide Run, MinerStep;
    RunStep(cfg, 1, f, k, s);
    RunStep(cfg, 1, f, k + 1, s.(g := s.g.(connected := false), net := Disconnected));
  }

  /** The steps of such a run, one by one. */
  predicate FollowsFailing(f: seq<Step>, c: Content, ns: Nonces) {
    |f| == 23 && FollowsOpening(f, c) && FollowsFinds(f, ns) && FollowsBatch(f)
  }

  predicate FollowsOpening(f: seq<Step>, c: Content)
    requires |f| == 23
  {
    && f[0] == StartConnect && f[1] == ClearForDial && f[2] == ClearStaged && f[3] == ResetSession
    && f[4] == GoOnline && f[5] == ReadJob(c) && f[6] == SwapBatch && f[7] == LeaveWait(0) && f[8] == TakeSnapshot(0)
  }

  predicate FollowsFinds(f: seq<Step>, ns: Nonces)
    requires |f| == 23
  {
    && f[9] == Find(0, ns.first) && f[10] == PassGate1(0) && f[11] == PassGate2(0) && f[12] == Push(0)
    && f[13] == Find(0, ns.second) && f[14] == PassGate1(0) && f[15] == PassGate2(0) && f[16] == Push(0)
  }

  predicate FollowsBatch(f: seq<Step>)
    requires |f| == 23
  {
    && f[17] == ReadNothing && f[18] == SwapBatch && f[19] == LoadEpoch && f[20] == SendFail
    && f[21] == Disconnect && f[22] == ClearAfterClose
  }

  function Queued(g: Shared, share: Share): Shared { SubmitEnqueue(g.(found := g.found + 1), share) }

  /** Two finds from an empty queue. */
  function QueuedTwice(g: Shared, a: Share, b: Share): Shared { Queued(Queued(g, a), b) }

  lemma StillAtWork(s: State, snap: Snapshot, share: Share)
    requires AtWork(s, snap) && s.g.queue == []
    ensures AtWork(s.(g := Queued(s.g, share)), snap)
  {
  }

  lemma QueuedTwiceCounts(g: Shared, a: Share, b: Share)
    requires g.queue == []
    ensures var g' := QueuedTwice(g, a, b);
            && |g'.queue| == 2 && g'.queue[0].share == a && g'.found == g.found + 2
            && g'.sendFails == g.sendFails && g'.staleDrops == g.staleDrops && g'.submitDrops == g.submitDrops
            && g'.submitted == g.submitted && g'.behind == g.behind && g'.hasJob == g.hasJob && g'.epoch == g.epoch
  {
  }

  lemma TwoQueued(cfg: Config, f: seq<Step>, c: Content, ns: Nonces, s: State, snap: Snapshot) returns (a: Share, b: Share)
    requires FollowsFailing(f, c, ns) && Run(cfg, 1, f[..9]) == s && AtWork(s, snap) && s.g.queue == []
    requires Wins(cfg, snap, ns.first) && Wins(cfg, snap, ns.second)
    ensures a.epoch == snap.epoch && Run(cfg, 1, f[..17]) == s.(g := QueuedTwice(s.g, a, b))
  {
    hide Run, Wins, Apply, AtWork, Queued;
    a := QueuedShare(cfg, f, 9, ns.first, s, snap);
    StillAtWork(s, snap, a);
    b := QueuedShare(cfg, f, 13, ns.second, s.(g := Queued(s.g, a)), snap);
  }

  lemma FailingFollows(c: Content, ns: Nonces)
    ensures FollowsFailing(FailingRun(c, ns), c, ns)
  {
    var o, q, b := Opening(c), QueueOne(ns.first) + QueueOne(ns.second), FailedBatch();
    assert |o| == 9 && |q| == 8 && |b| == 6;
    hide Opening, QueueOne, FailedBatch, FollowsOpening, FollowsFinds, FollowsBatch;
    var f := FailingRun(c, ns);
    InThreeParts(o, q, b);
    OpeningFollows(f, c);
    FindsFollow(f, ns);
    BatchFollows(f);
  }

  lemma InThreeParts(o: seq<Step>, q: seq<Step>, b: seq<Step>)
    requires |o| == 9 && |q| == 8 && |b| == 6
    ensures var f := o + q + b;
            && |f| == 23 && (forall i :: 0 <= i < 9 ==> f[i] == o[i]) && (forall i :: 9 <= i < 17 ==> f[i] == q[i - 9])
            && forall i :: 17 <= i < 23 ==> f[i] == b[i - 17]
  {
  }

  lemma OpeningFollows(f: seq<Step>, c: Content)
    requires |f| == 23 && forall i :: 0 <= i < 9 ==> f[i] == Opening(c)[i]
    ensures FollowsOpening(f, c)
  {
  }

  lemma FindsFollow(f: seq<Step>, ns: Nonces)
    requires |f| == 23 && forall i :: 9 <= i < 17 ==> f[i] == (QueueOne(ns.first) + QueueOne(ns.second))[i - 9]
    ensures FollowsFinds(f, ns)
  {
  }

  lemma BatchFollows(f: seq<Step>)
    requires |f| == 23 && forall i :: 17 <= i < 23 ==> f[i] == FailedBatch()[i - 17]
    ensures FollowsBatch(f)
  {
  }

  lemma WholeRun(f: seq<Step>, c: Content, ns: Nonces)
    requires FollowsFailing(f, c, ns)
    ensures f[..23] == f
  {
  }

  lemma AtWorkWithJob(cfg: Config, f: seq<Step>, c: Content, ns: Nonces) returns (s: State, snap: Snapshot)
    requires FollowsFailing(f, c, ns)
    requires WellFormed(c) && Wins(cfg, FirstSnapshot(cfg, c), ns.first) && Wins(cfg, FirstSnapshot(cfg, c), ns.second)
    ensures Run(cfg, 1, f[..9]) == s && AtWork(s, snap) && snap == FirstSnapshot(cfg, c)
    ensures s == State(OpenedWith(c), [Mining(snap)], None, Session) && snap.epoch == 1
  {
    hide Run, WorkBytes, Stamped, WellFormed, Apply;
    DialSteps(cfg, f);
    JobSteps(cfg, f, c);
    snap := Snapshot(1, c.jobId, WorkBytes(c), c.difficulty);
    s := State(OpenedWith(c), [Mining(snap)], None, Session);
  }

  /** A run of one miner, for any two winning nonces, that comes to rest with two finds and one failed send
      counted: the identity fails. */
  lemma HeaderCounterexample(cfg: Config, c: Content, ns: Nonces)
    requires WellFormed(c) && Wins(cfg, FirstSnapshot(cfg, c), ns.first) && Wins(cfg, FirstSnapshot(cfg, c), ns.second)
    ensures var s := Run(cfg, 1, FailingRun(c, ns));
            && s.g.queue == [] && Holdings(s.net) == [] && Gated(s.miners) == 0 && s.g.behind == [1]
            && s.g.found == 2 && s.g.sendFails == 1 && s.g.staleDrops == s.g.submitDrops == s.g.submitted == 0
  {
    hide Run, FailingRun, FollowsFailing, QueuedTwice, AtWork, Wins, WellFormed, WorkBytes;
    var f := FailingRun(c, ns);
    FailingFollows(c, ns);
    WholeRun(f, c, ns);
    var s, snap := AtWorkWithJob(cfg, f, c, ns);
    var a, b := TwoQueued(cfg, f, c, ns, s, snap);
    QueuedTwiceCounts(s.g, a, b);
    EndOfBatch(cfg, f, c, ns, s.(g := QueuedTwice(s.g, a, b)));
    OneMining(snap);
  }

  lemma EndOfBatch(cfg: Config, f: seq<Step>, c: Content, ns: Nonces, s: State)
    requires FollowsFailing(f, c, ns) && Run(cfg, 1, f[..17]) == s && s.net.Session? && s.lock.None? && s.g.hasJob
    requires |s.g.queue| == 2 && s.g.queue[0].share.epoch == s.g.epoch
    ensures Run(cfg, 1, f[..23]) == s.(g := SendFailed(s.g.(queue := []), 1).(connected := false), net := Down)
  {
    hide Run, Apply;
    FailingSend(cfg, f, 17, s);
    ClosingSteps(cfg, f, 21, s.(g := SendFailed(s.g.(queue := []), 1), net := Closing));
  }

  lemma OneMining(snap: Snapshot)
    ensures Gated([Mining(snap)]) == 0
  {
    assert [Mining(snap)][..0] == [];
  }
}
