/** The code behind the steps: the shared miner state and the operations that miner threads and the
    network thread apply to it. A ghost trace names the atomic steps taken so far by all threads, and
    every method extends it by the steps it is made of, so what holds of every run holds of this code.
    A step of another thread between two of these calls is one more element of the trace. */
module ShareQueue {
  import opened Suffix
  import opened HexText
  import opened JsonText
  import opened Protocol
  import opened ProtocolSafety

  lemma RunExtends(cfg: Config, threads: nat, past: seq<Step>, step: Step)
    ensures Run(cfg, threads, past + [step]) == Apply(cfg, Run(cfg, threads, past), step)
  {
    assert (past + [step])[..|past|] == past;
  }

  lemma SessionSteps(cfg: Config, s: State, c: Content)
    requires s.net.Session?
    ensures Apply(cfg, s, ReadJob(c)) == s.(g := Protocol.HandleJob(s.g, c), net := Submitting)
  {
  }

  lemma DrainSteps(cfg: Config, s: State)
    requires s.net.Sending? && s.net.batch != []
    ensures var item := s.net.batch[0];
            var rest := Sending(s.net.batch[1..], s.net.current);
            if item.share.epoch != s.net.current
            then Apply(cfg, s, DrainStale) == s.(g := DropStale(s.g), net := rest)
            else Apply(cfg, s, SendOk) == s.(g := Transmit(s.g, item), net := rest)
                 && Apply(cfg, s, SendFail) == s.(g := SendFailed(s.g, |s.net.batch| - 1), net := Closing)
  {
  }

  /** The only bytes that a text can spell. */
  lemma SpelledBlob(s: string)
    ensures forall b :: s == Hex(b) ==> FromHex(s) == b
  {
    forall b | s == Hex(b) ensures FromHex(s) == b { HexRoundTrip(b); }
  }

  class MinerState {
    const cfg: Config
    ghost const threads: nat
    var job: Content
    var blobBin: seq<Byte>
    var jobEpoch: nat
    var connected: bool
    var sessionHasJob: bool
    var submitQueue: seq<Item>
    var found: nat
    var enqueued: nat
    var staleDrops: nat
    var submitDrops: nat
    var submitted: nat
    var sendFails: nat
    ghost var trace: seq<Step>

    ghost var now: State

    /** now is the state that the trace leads to, and the fields are its shared part. */
    ghost predicate Valid()
      reads this
    {
      now == Run(cfg, threads, trace) && Holds(now.g)
    }

    ghost predicate Holds(g: Shared)
      reads this
    {
      && g.job == job && blobBin == WorkBytes(g.job)
      && g.epoch == jobEpoch && g.connected == connected && g.hasJob == sessionHasJob && g.queue == submitQueue
      && g.found == found && g.enqueued == enqueued && g.staleDrops == staleDrops
      && g.submitDrops == submitDrops && g.submitted == submitted && g.sendFails == sendFails
    }

    constructor (cfg: Config, ghost threads: nat)
      ensures Valid() && this.cfg == cfg && this.threads == threads && trace == []
    {
      this.cfg, this.threads := cfg, threads;
      job, jobEpoch := NO_JOB, 0;
      blobBin := seq(MINIBLOCK_SIZE, _ => 0);
      connected, sessionHasJob, submitQueue := false, false, [];
      found, enqueued, staleDrops, submitDrops, submitted, sendFails := 0, 0, 0, 0, 0, 0;
      trace, now := [], Initial(threads);
    }

    ghost method Record(step: Step)
      requires now == Run(cfg, threads, trace)
      modifies this`trace, this`now
      ensures trace == old(trace) + [step] && now == Apply(cfg, old(now), step) && now == Run(cfg, threads, trace)
    {
      RunExtends(cfg, threads, trace, step);
      hide Apply;
      trace, now := trace + [step], Apply(cfg, now, step);
    }

    // ---------- miner threads ----------

    /** The job under the lock, as one worker's next snapshot. */
    method TakeSnapshot(ghost t: nat) returns (snap: Snapshot)
      requires Valid() && t < |now.miners| && (now.miners[t].Ready? || now.miners[t].Mining?)
      modifies this`trace, this`now
      ensures Valid() && trace == old(trace) + [Step.TakeSnapshot(t)] && now.miners[t] == Mining(snap)
      ensures snap.epoch == jobEpoch && snap.jobId == job.jobId && snap.blob == blobBin && snap.difficulty == job.difficulty
    {
      hide Run;
      snap := Snapshot(jobEpoch, job.jobId, blobBin, job.difficulty);
      Record(Step.TakeSnapshot(t));
    }

    /** Counts a find before any gate. */
    method CountFind(ghost t: nat, ghost nonce: seq<Byte>)
      requires Valid() && t < |now.miners| && now.miners[t].Mining? && |nonce| == 4
      requires var snap := now.miners[t].snap;
               |snap.blob| == MINIBLOCK_SIZE && cfg.meets(Stamped(snap.blob, nonce, t), snap.difficulty)
      modifies this`found, this`trace, this`now
      ensures Valid() && trace == old(trace) + [Find(t, nonce)] && now.miners[t].AtGate1? && found == old(found) + 1
    {
      hide Run;
      found := found + 1;
      Record(Find(t, nonce));
    }

    method Gate1(ghost t: nat, shareEpoch: nat) returns (upToDate: bool)
      requires Valid() && t < |now.miners| && now.miners[t].AtGate1? && now.miners[t].share.epoch == shareEpoch
      modifies this`staleDrops, this`trace, this`now
      ensures Valid() && trace == old(trace) + [PassGate1(t)]
      ensures upToDate <==> jobEpoch == shareEpoch
      ensures now.miners[t].AtGate2? <==> upToDate
      ensures staleDrops == old(staleDrops) + if upToDate then 0 else 1
    {
      hide Run;
      upToDate := jobEpoch == shareEpoch;
      if !upToDate { staleDrops := staleDrops + 1; }
      Record(PassGate1(t));
    }

    /** The second gate; a fresh share leaves with the mutex held. */
    method Gate2(ghost t: nat, shareEpoch: nat) returns (upToDate: bool)
      requires Valid() && t < |now.miners| && now.miners[t].AtGate2? && now.miners[t].share.epoch == shareEpoch
      requires now.lock.None?
      modifies this`staleDrops, this`trace, this`now
      ensures Valid() && trace == old(trace) + [PassGate2(t)]
      ensures upToDate <==> jobEpoch == shareEpoch
      ensures now.lock == Some(t) <==> upToDate
      ensures staleDrops == old(staleDrops) + if upToDate then 0 else 1
    {
      hide Run;
      upToDate := jobEpoch == shareEpoch;
      if !upToDate { staleDrops := staleDrops + 1; }
      Record(PassGate2(t));
    }

    /** Queues a share; false when the oldest entry had to make room. */
    method SubmitEnqueue(ghost t: nat, share: Share) returns (kept: bool)
      requires Valid() && t < |now.miners| && now.miners[t].Enqueuing? && now.miners[t].share == share
      modifies this`submitQueue, this`submitDrops, this`enqueued, this`trace, this`now
      ensures Valid() && trace == old(trace) + [Push(t)]
      ensures kept <==> |old(submitQueue)| < 32
      ensures submitDrops == old(submitDrops) + if kept then 0 else 1
      ensures |submitQueue| > 0 && submitQueue[|submitQueue| - 1].share == share
      ensures submitQueue[..|submitQueue| - 1] == if kept then old(submitQueue) else old(submitQueue)[1..]
    {
      hide Run;
      kept := true;
      var ticket := enqueued;
      if |submitQueue| >= SUBMIT_QUEUE_MAX {
        submitQueue := submitQueue[1..];
        submitDrops := submitDrops + 1;
        kept := false;
      }
      submitQueue := submitQueue + [Item(share, ticket)];
      enqueued := enqueued + 1;
      Record(Push(t));
    }

    // ---------- the network thread ----------

    /** One job frame. */
    method HandleJob(c: Content) returns (ok: bool)
      requires Valid() && now.net.Session?
      modifies this`job, this`blobBin, this`jobEpoch, this`sessionHasJob, this`trace, this`now
      ensures Valid() && trace == old(trace) + [ReadJob(c)] && now.net.Submitting?
      ensures ok <==> c.jobId != "" && |c.blobHex| == 96
      ensures if ok then sessionHasJob && job == c else job == old(job) && sessionHasJob == old(sessionHasJob)
      ensures jobEpoch == old(jobEpoch) + if job == old(job) then 0 else 1
      ensures ok ==> forall b :: c.blobHex == Hex(b) ==> blobBin == b
    {
      hide Run, Apply, FromHex, Hex;
      ok := !(c.blobHex == "" || c.jobId == "") && |c.blobHex| == MINIBLOCK_SIZE * 2;
      SessionSteps(cfg, now, c);
      if ok {
        var workChanged := c.blobHex != job.blobHex || c.jobId != job.jobId || c.height != job.height
                           || c.difficulty != job.difficulty;
        job := c;
        blobBin := HexstrToBytes(c.blobHex);
        SpelledBlob(c.blobHex);
        if workChanged { jobEpoch := jobEpoch + 1; }
        sessionHasJob := true;
      }
      Record(ReadJob(c));
    }

    /** One frame as text. */
    method HandleFrame(json: string) returns (ok: bool)
      requires Valid() && now.net.Session?
      modifies this`job, this`blobBin, this`jobEpoch, this`sessionHasJob, this`trace, this`now
      ensures Valid() && trace == old(trace) + [ReadJob(JobOf(json))] && now.net.Submitting?
      ensures ok <==> JsonStr(json, "jobid") != "" && |JsonStr(json, "blockhashing_blob")| == 96
      ensures ok ==> job == JobOf(json) && QUOTE !in job.jobId && QUOTE !in job.blobHex
      ensures ok ==> job.difficulty == JsonInt(json, "difficultyuint64") && job.height == JsonInt(json, "height")
      ensures !ok ==> job == old(job)
    {
      hide Run, JsonStr, JsonInt;
      ok := HandleJob(JobOf(json));
    }

    method ClearSubmitQueue(ghost step: Step)
      requires Valid() && !IsMinerStep(step) && Apply(cfg, now, step).g == ClearQueue(now.g)
      modifies this`submitQueue, this`staleDrops, this`trace, this`now
      ensures Valid() && trace == old(trace) + [step] && now == Apply(cfg, old(now), step) && submitQueue == []
    {
      hide Run;
      staleDrops := staleDrops + |submitQueue|;
      submitQueue := [];
      Record(step);
    }

    method MarkDisconnected()
      requires Valid() && now.net.Closing?
      modifies this`connected, this`trace, this`now
      ensures Valid() && trace == old(trace) + [Disconnect] && now.net.Disconnected? && !connected && now.lock == old(now.lock)
    {
      hide Run;
      connected := false;
      Record(Disconnect);
    }

    /** What cleanup does to the shared state after a session or a late dial failure, when no other thread
        steps in between. */
    method Cleanup()
      requires Valid() && now.net.Closing? && now.lock.None?
      modifies this`connected, this`submitQueue, this`staleDrops, this`trace, this`now
      ensures Valid() && trace == old(trace) + [Disconnect, ClearAfterClose]
      ensures now.net.Down? && submitQueue == [] && !connected
    {
      hide Run, Holds;
      MarkDisconnected();
      ClearSubmitQueue(ClearAfterClose);
    }

    method ResetSessionFlag()
      requires Valid() && now.net.StagedCleared?
      modifies this`sessionHasJob, this`trace, this`now
      ensures Valid() && trace == old(trace) + [ResetSession] && now.net.Flagged? && !sessionHasJob
    {
      hide Run;
      sessionHasJob := false;
      Record(ResetSession);
    }

    method MarkConnected()
      requires Valid() && now.net.Flagged?
      modifies this`connected, this`trace, this`now
      ensures Valid() && trace == old(trace) + [GoOnline] && now.net.Session? && connected
    {
      hide Run;
      connected := true;
      Record(GoOnline);
    }

    /** What a successful connect does once the upgrade is accepted, when no other thread steps in between. */
    method OpenSession()
      requires Valid() && now.net.Dialing? && now.lock.None?
      modifies this`submitQueue, this`staleDrops, this`sessionHasJob, this`connected, this`trace, this`now
      ensures Valid() && trace == old(trace) + [ClearStaged, ResetSession, GoOnline] && now.net.Session?
      ensures submitQueue == [] && !sessionHasJob && connected
    {
      hide Run, Holds;
      ClearSubmitQueue(ClearStaged);
      hide Apply;
      ResetSessionFlag();
      MarkConnected();
    }

    /** Takes the whole queue out under the mutex. */
    method SwapOut() returns (batch: seq<Item>)
      requires Valid() && now.net.Submitting? && now.lock.None? && sessionHasJob
      modifies this`submitQueue, this`trace, this`now
      ensures Valid() && trace == old(trace) + [SwapBatch] && submitQueue == [] && batch == old(submitQueue)
      ensures now.net == if batch == [] then Session else Swapped(batch)
    {
      hide Run;
      batch := submitQueue;
      submitQueue := [];
      Record(SwapBatch);
    }

    /** Sends or drops one item of the batch; accepted is the outcome of the send. */
    method DrainOne(item: Item, current: nat, accepted: bool) returns (ghost step: Step)
      requires Valid() && now.net.Sending? && now.net.current == current
      requires now.net.batch != [] && now.net.batch[0] == item
      modifies this`staleDrops, this`submitted, this`sendFails, this`trace, this`now
      ensures Valid() && trace == old(trace) + [step] && !IsMinerStep(step)
      ensures step == if item.share.epoch != current then DrainStale else if accepted then SendOk else SendFail
      ensures sendFails == old(sendFails) + if step.SendFail? then 1 else 0
      ensures now.net == if step.SendFail? then Closing else Sending(old(now.net.batch)[1..], current)
    {
      DrainSteps(cfg, now);
      hide Run, Apply;
      if item.share.epoch != current {
        staleDrops := staleDrops + 1;
        step := DrainStale;
      } else if accepted {
        submitted := submitted + 1;
        step := SendOk;
      } else {
        sendFails := sendFails + 1;
        step := SendFail;
      }
      Record(step);
    }

    method LoadBatchEpoch() returns (current: nat)
      requires Valid() && now.net.Swapped?
      modifies this`trace, this`now
      ensures Valid() && trace == old(trace) + [LoadEpoch]
      ensures current == jobEpoch && now.net == Sending(old(now.net.batch), current)
    {
      hide Run;
      current := jobEpoch;
      Record(LoadEpoch);
    }

    method FinishBatch()
      requires Valid() && now.net.Sending? && now.net.batch == []
      modifies this`trace, this`now
      ensures Valid() && trace == old(trace) + [BatchDone] && now.net.Session?
    {
      hide Run;
      Record(BatchDone);
    }

    method DropAll()
      requires Valid() && now.net.Submitting? && now.lock.None? && !sessionHasJob
      modifies this`submitQueue, this`staleDrops, this`trace, this`now
      ensures Valid() && trace == old(trace) + [DropWithoutJob] && submitQueue == [] && now.net.Session?
    {
      hide Run;
      ClearSubmitQueue(DropWithoutJob);
    }

    /** Only the network thread moved since past. */
    ghost predicate NetworkOnly(past: seq<Step>)
      reads this`trace
    {
      past <= trace && forall i :: |past| <= i < |trace| ==> !IsMinerStep(trace[i])
    }

    /** Drains the queue, when no other thread steps in between; accepts is the number of sends that succeed
        before one fails. */
    method SubmitShares(accepts: nat) returns (alive: bool)
      requires Valid() && now.net.Submitting? && now.lock.None?
      modifies this`submitQueue, this`staleDrops, this`submitted, this`sendFails, this`trace, this`now
      ensures Valid() && NetworkOnly(old(trace)) && submitQueue == []
      ensures if alive then now.net.Session? && sendFails == old(sendFails)
              else now.net.Closing? && sendFails == old(sendFails) + 1
      ensures !sessionHasJob ==> alive && submitted == old(submitted)
    {
      hide Valid;
      if !sessionHasJob {
        DropAll();
        return true;
      }
      var batch := SwapOut();
      if batch == [] { return true; }
      var current := LoadBatchEpoch();
      var sends := 0;
      while batch != []
        invariant Valid() && NetworkOnly(old(trace)) && submitQueue == [] && now.net == Sending(batch, current)
        invariant sendFails == old(sendFails) && sessionHasJob
        decreases |batch|
      {
        ghost var step := DrainOne(batch[0], current, sends < accepts);
        if batch[0].share.epoch == current {
          if sends >= accepts { return false; }
          sends := sends + 1;
        }
        batch := batch[1..];
      }
      FinishBatch();
      alive := true;
    }

    /** What the counters of this code satisfy at any moment. */
    lemma Funnel()
      requires Valid()
      ensures |submitQueue| <= SUBMIT_QUEUE_MAX
      ensures found == staleDrops + submitDrops + submitted + sendFails + |submitQueue|
                       + |Holdings(now.net)| + Gated(now.miners) + Sum(now.g.behind)
    {
      RunFunnel(cfg, threads, trace);
    }
  }
}
