/** Where every share on the wire comes from, over all interleavings: the frame's own text, a worker's nonce and its
    thread number; which entries the queue keeps; and when the epoch moves. */
module WireOrigin {
  import opened Suffix
  import opened HexText
  import opened Protocol
  import opened ProtocolSafety

  // ---------- frames and epochs ----------

  /** Job frames that were taken are well-formed, and two jobs in a row differ. */
  ghost predicate JobsDiffer(g: Shared) {
    && (g.frame.Some? ==> |g.frame.value.blobHex| == 96 && g.frame.value.jobId != "")
    && (forall i :: 0 <= i < |g.wire| && g.wire[i].frame.Some? ==>
          |g.wire[i].frame.value.blobHex| == 96 && g.wire[i].frame.value.jobId != "")
    && |g.jobs| > 0 && g.jobs[|g.jobs| - 1] == g.job
    && forall k :: 0 <= k < |g.jobs| - 1 ==> g.jobs[k] != g.jobs[k + 1]
  }

  lemma JobsDifferStep(cfg: Config, s: State, step: Step)
    requires JobsDiffer(s.g)
    ensures JobsDiffer(Apply(cfg, s, step).g)
  {
    if IsMinerStep(step) {
      hide MinerStep;
      MinerStepFrame(cfg, s, step);
    } else {
      NetJobsDiffer(s, step);
    }
  }

  lemma NetJobsDiffer(s: State, step: Step)
    requires JobsDiffer(s.g) && !IsMinerStep(step)
    ensures JobsDiffer(NetStep(s, step).g)
  {
  }

  /** The epoch moves exactly with the job: consecutive epochs have different jobs, and the last is the current one. */
  lemma {:induction false} EpochsDiffer(cfg: Config, threads: nat, steps: seq<Step>)
    ensures JobsDiffer(Run(cfg, threads, steps).g)
    ensures |Run(cfg, threads, steps).g.jobs| == Run(cfg, threads, steps).g.epoch + 1
    decreases |steps|
  {
    hide JobsDiffer, Apply;
    RunSafe(cfg, threads, steps);
    if steps != [] {
      EpochsDiffer(cfg, threads, steps[..|steps| - 1]);
      JobsDifferStep(cfg, Run(cfg, threads, steps[..|steps| - 1]), steps[|steps| - 1]);
    } else {
      StartDiffers();
    }
  }

  lemma StartDiffers()
    ensures JobsDiffer(START)
  {
  }

  // ---------- the queue ----------

  /** The queue holds the last entries ever made, in order. */
  ghost predicate HoldsLatest(g: Shared) {
    forall i :: 0 <= i < |g.queue| ==> g.queue[i].ticket + |g.queue| == g.enqueued + i
  }

  lemma LatestStep(cfg: Config, s: State, step: Step)
    requires HoldsLatest(s.g)
    ensures HoldsLatest(Apply(cfg, s, step).g)
  {
    hide WorkBytes, Stamped;
  }

  /** At every moment the queue holds exactly the latest of all entries, at most 32: an eviction takes the oldest. */
  lemma {:induction false} QueueHoldsLatest(cfg: Config, threads: nat, steps: seq<Step>)
    ensures HoldsLatest(Run(cfg, threads, steps).g) && |Run(cfg, threads, steps).g.queue| <= 32
    decreases |steps|
  {
    hide HoldsLatest, Apply;
    RunFunnel(cfg, threads, steps);
    if steps != [] {
      QueueHoldsLatest(cfg, threads, steps[..|steps| - 1]);
      LatestStep(cfg, Run(cfg, threads, steps[..|steps| - 1]), steps[|steps| - 1]);
    } else {
      assert HoldsLatest(START) by { EmptyHoldsLatest(); }
    }
  }

  lemma EmptyHoldsLatest()
    ensures HoldsLatest(START)
  {
  }

  // ---------- nonce and thread ----------

  /** The step is the find of this share: its nonce and thread end the blob. */
  ghost predicate Finds(step: Step, threads: nat, share: Share) {
    && step.Find? && step.t < threads && |step.nonce| == 4 && |share.blob| == 48
    && share.blob[43..] == step.nonce + [step.t % 256]
  }

  ghost predicate FoundBy(threads: nat, steps: seq<Step>, share: Share) {
    exists j :: 0 <= j < |steps| && Finds(steps[j], threads, share)
  }

  ghost predicate AllFound(threads: nat, steps: seq<Step>, items: seq<Item>) {
    forall i :: 0 <= i < |items| ==> FoundBy(threads, steps, items[i].share)
  }

  ghost predicate MinersFound(threads: nat, steps: seq<Step>, miners: seq<Miner>) {
    |miners| == threads && forall t :: 0 <= t < |miners| && InGate(miners[t]) ==> FoundBy(threads, steps, miners[t].share)
  }

  /** Every share in the system was found in this run. */
  ghost predicate Origins(threads: nat, steps: seq<Step>, s: State) {
    && MinersFound(threads, steps, s.miners) && AllFound(threads, steps, s.g.queue)
    && AllFound(threads, steps, Holdings(s.net)) && AllFound(threads, steps, WireItems(s.g.wire))
  }

  lemma FoundLater(threads: nat, steps: seq<Step>, step: Step, share: Share)
    requires FoundBy(threads, steps, share)
    ensures FoundBy(threads, steps + [step], share)
  {
    hide Finds;
    var j :| 0 <= j < |steps| && Finds(steps[j], threads, share);
    assert (steps + [step])[j] == steps[j];
  }

  lemma AllLater(threads: nat, steps: seq<Step>, step: Step, items: seq<Item>)
    requires AllFound(threads, steps, items)
    ensures AllFound(threads, steps + [step], items)
  {
    hide FoundBy;
    forall i | 0 <= i < |items| ensures FoundBy(threads, steps + [step], items[i].share) {
      FoundLater(threads, steps, step, items[i].share);
    }
  }

  lemma OriginsLater(threads: nat, steps: seq<Step>, step: Step, s: State)
    requires Origins(threads, steps, s)
    ensures Origins(threads, steps + [step], s)
  {
    hide FoundBy, AllFound, WireItems;
    AllLater(threads, steps, step, s.g.queue);
    AllLater(threads, steps, step, Holdings(s.net));
    AllLater(threads, steps, step, WireItems(s.g.wire));
    forall t | 0 <= t < |s.miners| && InGate(s.miners[t]) ensures FoundBy(threads, steps + [step], s.miners[t].share) {
      FoundLater(threads, steps, step, s.miners[t].share);
    }
  }

  /** The nonce and the thread byte of a find are the last five bytes of its blob. */
  lemma StampedEnds(blob: seq<Byte>, nonce: seq<Byte>, tid: nat)
    requires |blob| == 48 && |nonce| == 4
    ensures Stamped(blob, nonce, tid)[..43] == blob[..43] && Stamped(blob, nonce, tid)[43..] == nonce + [tid % 256]
  {
  }

  /** What the stepping miner holds afterwards was found. */
  lemma StepperFound(cfg: Config, threads: nat, steps: seq<Step>, s: State, step: Step)
    requires Origins(threads, steps, s) && IsMinerStep(step) && step.t < |s.miners|
    ensures var m := MinerStep(cfg, s, step).miners[step.t]; InGate(m) ==> FoundBy(threads, steps + [step], m.share)
  {
    hide FoundBy, WorkBytes, Stamped, AllFound;
    var m := s.miners[step.t];
    if InGate(m) { FoundLater(threads, steps, step, m.share); }
    if step.Find? && m.Mining? && |step.nonce| == 4 && |m.snap.blob| == MINIBLOCK_SIZE {
      var share := Share(s.g.found, m.snap.jobId, Stamped(m.snap.blob, step.nonce, step.t), m.snap.epoch);
      StampedEnds(m.snap.blob, step.nonce, step.t);
      JustFound(threads, steps, step, share);
    }
  }

  lemma JustFound(threads: nat, steps: seq<Step>, step: Step, share: Share)
    requires Finds(step, threads, share)
    ensures FoundBy(threads, steps + [step], share)
  {
    hide Finds;
    assert (steps + [step])[|steps|] == step;
  }

  lemma EnqueueFound(threads: nat, steps: seq<Step>, g: Shared, share: Share)
    requires AllFound(threads, steps, g.queue) && FoundBy(threads, steps, share)
    ensures AllFound(threads, steps, SubmitEnqueue(g, share).queue)
  {
    hide FoundBy;
  }

  lemma MinerStepFound(cfg: Config, threads: nat, steps: seq<Step>, s: State, step: Step)
    requires Origins(threads, steps, s) && IsMinerStep(step)
    ensures Origins(threads, steps + [step], MinerStep(cfg, s, step))
  {
    hide MinerStep, FoundBy, AllFound, WireItems, SubmitEnqueue;
    OriginsLater(threads, steps, step, s);
    MinerStepFrame(cfg, s, step);
    if step.t < |s.miners| {
      StepperFound(cfg, threads, steps, s, step);
      if s.miners[step.t].Enqueuing? { EnqueueFound(threads, steps + [step], s.g, s.miners[step.t].share); }
    } else {
      UnknownMiner(cfg, s, step);
    }
  }

  lemma AllOfPart(threads: nat, steps: seq<Step>, items: seq<Item>, i: nat)
    requires AllFound(threads, steps, items) && i <= |items|
    ensures AllFound(threads, steps, items[i..]) && AllFound(threads, steps, items[..i])
  {
    hide FoundBy;
  }

  lemma NetStepFound(cfg: Config, threads: nat, steps: seq<Step>, s: State, step: Step)
    requires Origins(threads, steps, s) && !IsMinerStep(step)
    ensures Origins(threads, steps + [step], NetStep(s, step))
  {
    hide FoundBy, MinersFound;
    OriginsLater(threads, steps, step, s);
  }

  lemma {:induction false} RunFound(cfg: Config, threads: nat, steps: seq<Step>)
    ensures Origins(threads, steps, Run(cfg, threads, steps))
    decreases |steps|
  {
    hide Origins, MinerStep, NetStep;
    if steps == [] {
      NothingFound(cfg, threads);
    } else {
      var past, step := steps[..|steps| - 1], steps[|steps| - 1];
      RunFound(cfg, threads, past);
      assert past + [step] == steps;
      if IsMinerStep(step) {
        MinerStepFound(cfg, threads, past, Run(cfg, threads, past), step);
      } else {
        NetStepFound(cfg, threads, past, Run(cfg, threads, past), step);
      }
    }
  }

  lemma NothingFound(cfg: Config, threads: nat)
    ensures Origins(threads, [], Run(cfg, threads, []))
  {
  }

  // ---------- the text of a share ----------

  /** The bytes that a job's text spells are its work bytes. */
  lemma WorkSpelled(c: Content, b: seq<Byte>)
    requires |b| == 48 && c.blobHex == Hex(b)
    ensures WorkBytes(c) == b
  {
    HexRoundTrip(b);
    hide Hex, FromHex;
  }

  lemma HexOfParts(a: seq<Byte>, b: seq<Byte>)
    ensures Hex(a + b)[..2 * |a|] == Hex(a) && Hex(a + b)[2 * |a|..] == Hex(b)
  {
    hide Hex;
    HexConcat(a, b);
    SplitText(Hex(a), Hex(b));
  }

  /** Equal bytes up to a place are equal digits up to twice that place. */
  lemma HexSplit(blob: seq<Byte>, i: nat)
    requires i <= |blob|
    ensures Hex(blob)[..2 * i] == Hex(blob[..i]) && Hex(blob)[2 * i..] == Hex(blob[i..])
  {
    hide Hex;
    var a, b := blob[..i], blob[i..];
    HexOfParts(a, b);
    assert a + b == blob && |a| == i;
  }

  lemma SplitText(a: string, b: string)
    ensures (a + b)[..|a|] == a && (a + b)[|a|..] == b
  {
  }

  /** The digits of a share on the wire: up to the nonce those of the session's last job frame, then the nonce of a find
      of this run and the number of the thread that made it. */
  lemma WireShares(cfg: Config, threads: nat, steps: seq<Step>, i: nat, b: seq<Byte>)
    requires i < |Run(cfg, threads, steps).g.wire| && |b| == 48
    ensures var x := Run(cfg, threads, steps).g.wire[i];
            && x.frame.Some? && |x.frame.value.blobHex| == 96 && x.frame.value.jobId != ""
            && FoundBy(threads, steps, x.item.share) && |x.item.share.blob| == 48
            && (x.frame.value.blobHex == Hex(b) ==>
                  && x.item.share.blob[..43] == b[..43]
                  && Hex(x.item.share.blob)[..86] == x.frame.value.blobHex[..86])
  {
    hide Run, JobsDiffer, Hex, FoundBy, WorkBytes;
    WireSafety(cfg, threads, steps, i);
    EpochsDiffer(cfg, threads, steps);
    RunFound(cfg, threads, steps);
    var s := Run(cfg, threads, steps);
    var x := s.g.wire[i];
    assert WireItems(s.g.wire)[i] == x.item;
    FramesKnown(s.g, i);
    if x.frame.value.blobHex == Hex(b) {
      WorkSpelled(x.frame.value, b);
      HexSplit(x.item.share.blob, 43);
      HexSplit(b, 43);
    }
  }

  lemma FramesKnown(g: Shared, i: nat)
    requires JobsDiffer(g) && i < |g.wire| && g.wire[i].frame.Some?
    ensures |g.wire[i].frame.value.blobHex| == 96 && g.wire[i].frame.value.jobId != ""
  {
  }

  /** The last ten digits: eight of the nonce, two of the thread number. */
  lemma LastDigits(threads: nat, steps: seq<Step>, share: Share)
    requires FoundBy(threads, steps, share)
    ensures exists j :: 0 <= j < |steps| && steps[j].Find? && steps[j].t < threads && |steps[j].nonce| == 4
                        && Hex(share.blob)[86..] == Hex(steps[j].nonce) + Hex([steps[j].t % 256])
  {
    hide Hex;
    var j :| 0 <= j < |steps| && Finds(steps[j], threads, share);
    HexSplit(share.blob, 43);
    HexConcat(steps[j].nonce, [steps[j].t % 256]);
  }
}
