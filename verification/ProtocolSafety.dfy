/** Wire safety: what every share sent satisfies, over all interleavings and reconnects. */
module ProtocolSafety {
  import opened Suffix
  import opened Protocol

  /** blob equals the job's work bytes except for the nonce and thread bytes. */
  ghost predicate SameWork(blob: seq<Byte>, work: seq<Byte>)
  {
    |blob| == MINIBLOCK_SIZE == |work| && blob[..NONCE_OFFSET] == work[..NONCE_OFFSET]
  }

  /** The share was found for job c. */
  ghost predicate FoundFor(cfg: Config, share: Share, c: Content)
  {
    share.jobId == c.jobId && SameWork(share.blob, WorkBytes(c)) && cfg.meets(share.blob, c.difficulty)
  }

  /** The share was found for the job of its own epoch. */
  ghost predicate ShareOk(cfg: Config, jobs: seq<Content>, share: Share)
  {
    0 < share.epoch < |jobs| && FoundFor(cfg, share, jobs[share.epoch])
  }

  ghost predicate SnapOk(cfg: Config, jobs: seq<Content>, snap: Snapshot)
  {
    && 0 < snap.epoch < |jobs| && snap.jobId == jobs[snap.epoch].jobId
    && snap.blob == WorkBytes(jobs[snap.epoch]) && snap.difficulty == jobs[snap.epoch].difficulty
  }

  ghost predicate MinerOk(cfg: Config, jobs: seq<Content>, m: Miner)
  {
    && (m.Ready? ==> |jobs| > 1)
    && (!m.Waiting? && !m.Ready? ==> SnapOk(cfg, jobs, m.snap))
    && (m.AtGate1? || m.AtGate2? || m.Enqueuing? ==> ShareOk(cfg, jobs, m.share))
  }

  ghost predicate ItemsOk(cfg: Config, jobs: seq<Content>, items: seq<Item>)
  {
    forall i :: 0 <= i < |items| ==> ShareOk(cfg, jobs, items[i].share)
  }

  /** The safety property of one sent share. */
  ghost predicate SentOk(cfg: Config, x: Sent)
  {
    && x.item.share.epoch == x.epoch
    && x.frame.Some? && FoundFor(cfg, x.item.share, x.frame.value)
  }

  /** History of jobs, and what hasJob says about the current session. */
  ghost predicate JobInv(s: State)
  {
    && |s.g.jobs| == s.g.epoch + 1 && s.g.jobs[s.g.epoch] == s.g.job && s.g.jobs[0] == NO_JOB
    && (s.g.hasJob ==> s.g.frame == Some(s.g.job))
    && (s.net.Swapped? || s.net.Sending? ==> s.g.hasJob)
    && (s.net.Sending? ==> s.net.current == s.g.epoch)
  }

  ghost predicate MinersOk(cfg: Config, jobs: seq<Content>, miners: seq<Miner>)
  {
    forall t :: 0 <= t < |miners| ==> MinerOk(cfg, jobs, miners[t])
  }

  ghost predicate WireOk(cfg: Config, wire: seq<Sent>)
  {
    forall i :: 0 <= i < |wire| ==> SentOk(cfg, wire[i])
  }

  ghost predicate SafeInv(cfg: Config, s: State)
  {
    && JobInv(s) && MinersOk(cfg, s.g.jobs, s.miners)
    && ItemsOk(cfg, s.g.jobs, s.g.queue) && ItemsOk(cfg, s.g.jobs, Holdings(s.net))
    && WireOk(cfg, s.g.wire)
  }

  /** A later epoch does not change what earlier epochs were. */
  lemma HistoryGrows(cfg: Config, jobs: seq<Content>, c: Content, s: State)
    requires MinersOk(cfg, jobs, s.miners) && ItemsOk(cfg, jobs, s.g.queue) && ItemsOk(cfg, jobs, Holdings(s.net))
    ensures MinersOk(cfg, jobs + [c], s.miners)
    ensures ItemsOk(cfg, jobs + [c], s.g.queue) && ItemsOk(cfg, jobs + [c], Holdings(s.net))
  {
    hide FoundFor;
    forall t | 0 <= t < |s.miners| ensures MinerOk(cfg, jobs + [c], s.miners[t]) {
      assert MinerOk(cfg, jobs, s.miners[t]);
    }
  }

  /** A find belongs to the snapshot's job. */
  lemma FindOk(cfg: Config, jobs: seq<Content>, snap: Snapshot, nonce: seq<Byte>, t: nat, id: nat)
    requires SnapOk(cfg, jobs, snap) && |nonce| == 4 && |snap.blob| == MINIBLOCK_SIZE
    requires cfg.meets(Stamped(snap.blob, nonce, t), snap.difficulty)
    ensures ShareOk(cfg, jobs, Share(id, snap.jobId, Stamped(snap.blob, nonce, t), snap.epoch))
  {
  }

  /** The stepping miner stays sound. */
  lemma StepperOk(cfg: Config, s: State, step: Step)
    requires JobInv(s) && IsMinerStep(step) && step.t < |s.miners| && MinerOk(cfg, s.g.jobs, s.miners[step.t])
    ensures MinerOk(cfg, s.g.jobs, MinerStep(cfg, s, step).miners[step.t])
  {
    var m := s.miners[step.t];
    if step.Find? && m.Mining? && |step.nonce| == 4 && |m.snap.blob| == MINIBLOCK_SIZE
       && cfg.meets(Stamped(m.snap.blob, step.nonce, step.t), m.snap.difficulty) {
      FindOk(cfg, s.g.jobs, m.snap, step.nonce, step.t, s.g.found);
    }
    hide FoundFor, WorkBytes, Stamped, ShareOk;
  }

  lemma MinerStepFrame(cfg: Config, s: State, step: Step)
    requires IsMinerStep(step)
    ensures var s' := MinerStep(cfg, s, step);
            && s'.net == s.net && s'.g.jobs == s.g.jobs && s'.g.job == s.g.job && s'.g.epoch == s.g.epoch
            && s'.g.hasJob == s.g.hasJob && s'.g.frame == s.g.frame && s'.g.wire == s.g.wire
            && |s'.miners| == |s.miners|
            && (step.t < |s.miners| ==> s'.miners == s.miners[step.t := s'.miners[step.t]])
            && (s'.g.queue == s.g.queue
                || (step.t < |s.miners| && s.miners[step.t].Enqueuing?
                    && s'.g.queue == SubmitEnqueue(s.g, s.miners[step.t].share).queue))
  {
    hide WorkBytes, Stamped;
  }

  lemma EnqueueSafe(cfg: Config, g: Shared, share: Share)
    requires ItemsOk(cfg, g.jobs, g.queue) && ShareOk(cfg, g.jobs, share)
    ensures ItemsOk(cfg, g.jobs, SubmitEnqueue(g, share).queue)
  {
    hide ShareOk;
  }

  lemma MinersUpdate(cfg: Config, jobs: seq<Content>, miners: seq<Miner>, t: nat, m: Miner)
    requires MinersOk(cfg, jobs, miners) && t < |miners| && MinerOk(cfg, jobs, m)
    ensures MinersOk(cfg, jobs, miners[t := m])
  {
    hide MinerOk;
  }

  lemma MinerStepSafe(cfg: Config, s: State, step: Step)
    requires SafeInv(cfg, s) && IsMinerStep(step)
    ensures SafeInv(cfg, MinerStep(cfg, s, step))
  {
    hide MinerStep, ShareOk, ItemsOk, WireOk, SubmitEnqueue, FoundFor, SnapOk;
    MinerStepFrame(cfg, s, step);
    if step.t < |s.miners| {
      var m := s.miners[step.t];
      assert MinerOk(cfg, s.g.jobs, m);
      StepperOk(cfg, s, step);
      MinersUpdate(cfg, s.g.jobs, s.miners, step.t, MinerStep(cfg, s, step).miners[step.t]);
      if m.Enqueuing? { EnqueueSafe(cfg, s.g, m.share); }
    } else {
      assert MinerStep(cfg, s, step) == s by { UnknownMiner(cfg, s, step); }
    }
  }

  lemma UnknownMiner(cfg: Config, s: State, step: Step)
    requires IsMinerStep(step) && step.t >= |s.miners|
    ensures MinerStep(cfg, s, step) == s
  {
  }

  lemma NetStepSafe(cfg: Config, s: State, step: Step)
    requires SafeInv(cfg, s) && !IsMinerStep(step)
    ensures SafeInv(cfg, NetStep(s, step))
  {
    if step.ReadJob? && s.net.Session? {
      HistoryGrows(cfg, s.g.jobs, step.c, s);
      hide MinersOk, ItemsOk, WireOk;
    } else if step.SendOk? && s.net.Sending? && s.net.batch != [] {
      hide MinersOk, FoundFor;
      assert ShareOk(cfg, s.g.jobs, Holdings(s.net)[0].share);
    } else {
      hide MinersOk, WireOk, ShareOk;
    }
  }

  lemma {:induction false} RunSafe(cfg: Config, threads: nat, steps: seq<Step>)
    ensures SafeInv(cfg, Run(cfg, threads, steps))
    decreases |steps|
  {
    if steps != [] {
      var s := Run(cfg, threads, steps[..|steps| - 1]);
      var step := steps[|steps| - 1];
      RunSafe(cfg, threads, steps[..|steps| - 1]);
      if IsMinerStep(step) { MinerStepSafe(cfg, s, step); } else { NetStepSafe(cfg, s, step); }
    }
  }

  /** Every share on the wire was sent in the epoch it was found for, after a job frame of the same
      session, and carries that last frame's job id, its work bytes up to the nonce, and a blob that
      meets its difficulty. */
  lemma WireSafety(cfg: Config, threads: nat, steps: seq<Step>, i: nat)
    requires i < |Run(cfg, threads, steps).g.wire|
    ensures var x := Run(cfg, threads, steps).g.wire[i];
            && x.item.share.epoch == x.epoch
            && x.frame.Some?
            && x.item.share.jobId == x.frame.value.jobId
            && |x.item.share.blob| == MINIBLOCK_SIZE
            && x.item.share.blob[..NONCE_OFFSET] == WorkBytes(x.frame.value)[..NONCE_OFFSET]
            && cfg.meets(x.item.share.blob, x.frame.value.difficulty)
  {
    RunSafe(cfg, threads, steps);
  }

  // ---------- order and uniqueness ----------

  ghost function WireItems(wire: seq<Sent>): (r: seq<Item>)
    ensures |r| == |wire| && forall i :: 0 <= i < |r| ==> r[i] == wire[i].item
  {
    seq(|wire|, i requires 0 <= i < |wire| => wire[i].item)
  }

  /** All items ever queued that are sent, being sent, or queued, oldest first. */
  ghost function Pipeline(s: State): seq<Item>
  {
    WireItems(s.g.wire) + Holdings(s.net) + s.g.queue
  }

  /** Tickets increase along the pipeline and name the find each item came from. */
  ghost predicate Ticketed(finds: seq<nat>, items: seq<Item>)
  {
    && (forall i, j :: 0 <= i < j < |items| ==> items[i].ticket < items[j].ticket)
    && (forall i :: 0 <= i < |items| ==> items[i].ticket < |finds| && finds[items[i].ticket] == items[i].share.id)
  }

  ghost predicate InGate(m: Miner) {
    m.AtGate1? || m.AtGate2? || m.Enqueuing?
  }

  /** Every find is in one place: one gate, or one ticket. */
  ghost predicate FindsInv(s: State)
  {
    && |s.g.finds| == s.g.enqueued
    && (forall i, j :: 0 <= i < j < |s.g.finds| ==> s.g.finds[i] != s.g.finds[j])
    && (forall i :: 0 <= i < |s.g.finds| ==> s.g.finds[i] < s.g.found)
    && (forall t :: 0 <= t < |s.miners| && InGate(s.miners[t]) ==>
          s.miners[t].share.id < s.g.found && s.miners[t].share.id !in s.g.finds)
    && (forall t, u :: 0 <= t < u < |s.miners| && InGate(s.miners[t]) && InGate(s.miners[u]) ==>
          s.miners[t].share.id != s.miners[u].share.id)
  }

  ghost predicate OrderInv(s: State)
  {
    FindsInv(s) && Ticketed(s.g.finds, Pipeline(s))
  }

  /** Removing items from the pipeline keeps it ordered. */
  lemma TicketedSub(finds: seq<nat>, a: seq<Item>, x: seq<Item>, b: seq<Item>)
    requires Ticketed(finds, a + x + b)
    ensures Ticketed(finds, a + b)
  {
    forall i, j | 0 <= i < j < |a + b| ensures (a + b)[i].ticket < (a + b)[j].ticket {
      var i' := if i < |a| then i else i + |x|;
      var j' := if j < |a| then j else j + |x|;
      assert (a + x + b)[i'] == (a + b)[i] && (a + x + b)[j'] == (a + b)[j];
    }
    forall i | 0 <= i < |a + b| ensures (a + b)[i].ticket < |finds| && finds[(a + b)[i].ticket] == (a + b)[i].share.id {
      var i' := if i < |a| then i else i + |x|;
      assert (a + x + b)[i'] == (a + b)[i];
    }
  }

  lemma TicketedPush(finds: seq<nat>, items: seq<Item>, share: Share)
    requires Ticketed(finds, items)
    ensures Ticketed(finds + [share.id], items + [Item(share, |finds|)])
  {
  }

  lemma MinerStepOrder(cfg: Config, s: State, step: Step)
    requires OrderInv(s) && IsMinerStep(step)
    ensures OrderInv(MinerStep(cfg, s, step))
  {
    hide WorkBytes, Stamped, Ticketed;
    var s' := MinerStep(cfg, s, step);
    if step.Push? && step.t < |s.miners| && s.miners[step.t].Enqueuing? {
      PushOrder(s, step.t);
    } else {
      StillPipeline(s, s');
      hide Pipeline;
      MinerStepFinds(cfg, s, step);
    }
  }

  lemma MinerStepFinds(cfg: Config, s: State, step: Step)
    requires FindsInv(s) && IsMinerStep(step)
    requires step.Push? ==> !(step.t < |s.miners| && s.miners[step.t].Enqueuing?)
    ensures FindsInv(MinerStep(cfg, s, step)) && MinerStep(cfg, s, step).g.finds == s.g.finds
  {
    hide WorkBytes, Stamped;
  }

  lemma PushOrder(s: State, t: nat)
    requires OrderInv(s) && t < |s.miners| && s.miners[t].Enqueuing?
    ensures OrderInv(s.(g := SubmitEnqueue(s.g, s.miners[t].share), lock := None, miners := s.miners[t := Mining(s.miners[t].snap)]))
  {
    var share := s.miners[t].share;
    var s' := s.(g := SubmitEnqueue(s.g, share), lock := None, miners := s.miners[t := Mining(s.miners[t].snap)]);
    PushTickets(s, share);
    assert Pipeline(s') == Pipeline(s.(g := SubmitEnqueue(s.g, share)));
    hide Ticketed, Pipeline;
    assert FindsInv(s');
  }

  lemma PushTickets(s: State, share: Share)
    requires Ticketed(s.g.finds, Pipeline(s)) && |s.g.finds| == s.g.enqueued
    ensures Ticketed(s.g.finds + [share.id], Pipeline(s.(g := SubmitEnqueue(s.g, share))))
  {
    var front := WireItems(s.g.wire) + Holdings(s.net);
    var kept := if |s.g.queue| >= SUBMIT_QUEUE_MAX then s.g.queue[1..] else s.g.queue;
    if |s.g.queue| >= SUBMIT_QUEUE_MAX {
      assert Pipeline(s) == front + [s.g.queue[0]] + s.g.queue[1..];
      TicketedSub(s.g.finds, front, [s.g.queue[0]], s.g.queue[1..]);
    }
    TicketedPush(s.g.finds, front + kept, share);
    assert Pipeline(s.(g := SubmitEnqueue(s.g, share))) == (front + kept) + [Item(share, |s.g.finds|)];
  }

  /** The step clears the queue. */
  ghost predicate Clears(s: State, s': State)
  {
    s'.g.queue == [] && Holdings(s'.net) == Holdings(s.net) && s'.g.wire == s.g.wire
  }

  /** The step drops the items gone from the front of the batch. */
  ghost predicate Drops(s: State, s': State, gone: seq<Item>)
  {
    s'.g.queue == s.g.queue && s'.g.wire == s.g.wire && Holdings(s.net) == gone + Holdings(s'.net)
  }

  lemma ClearsOrder(s: State, s': State)
    requires Ticketed(s.g.finds, Pipeline(s)) && Clears(s, s')
    ensures Ticketed(s.g.finds, Pipeline(s'))
  {
    hide Ticketed;
    var front := WireItems(s.g.wire) + Holdings(s.net);
    assert Pipeline(s) == front + s.g.queue + [];
    TicketedSub(s.g.finds, front, s.g.queue, []);
    assert Pipeline(s') == front + [];
  }

  lemma DropsOrder(s: State, s': State, gone: seq<Item>)
    requires Ticketed(s.g.finds, Pipeline(s)) && Drops(s, s', gone)
    ensures Ticketed(s.g.finds, Pipeline(s'))
  {
    hide Ticketed;
    var w, rest := WireItems(s.g.wire), Holdings(s'.net) + s.g.queue;
    assert Pipeline(s) == w + gone + rest;
    TicketedSub(s.g.finds, w, gone, rest);
    assert Pipeline(s') == w + rest;
  }

  lemma SendOkKeepsPipeline(s: State)
    requires s.net.Sending? && s.net.batch != []
    ensures Pipeline(s.(g := Transmit(s.g, s.net.batch[0]), net := Sending(s.net.batch[1..], s.net.current))) == Pipeline(s)
  {
    var b := s.net.batch;
    var s' := s.(g := Transmit(s.g, b[0]), net := Sending(b[1..], s.net.current));
    assert WireItems(s'.g.wire) == WireItems(s.g.wire) + [b[0]];
    assert b == [b[0]] + b[1..];
  }

  lemma SwapKeepsPipeline(s: State)
    requires Holdings(s.net) == []
    ensures Pipeline(s.(g := s.g.(queue := []), net := Swapped(s.g.queue))) == Pipeline(s)
  {
  }

  /** The step moves nothing. */
  ghost predicate Still(s: State, s': State)
  {
    s'.g.queue == s.g.queue && s'.g.wire == s.g.wire && Holdings(s'.net) == Holdings(s.net)
  }

  lemma BatchStepOrder(s: State, step: Step)
    requires step.SwapBatch? || step.SendOk? || step.DrainStale? || step.SendFail?
    requires Ticketed(s.g.finds, Pipeline(s))
    ensures Ticketed(s.g.finds, Pipeline(NetStep(s, step)))
  {
    hide Pipeline, Ticketed;
    var s' := NetStep(s, step);
    if step.SendOk? && s' != s {
      SendOkKeepsPipeline(s);
    } else if step.SwapBatch? && s.net.Submitting? {
      SwapKeepsPipeline(s);
      if s.g.queue == [] { StillPipeline(s, s'); }
    } else if s' != s {
      var b := s.net.batch;
      var gone := if step.DrainStale? then [b[0]] else b;
      assert b == gone + Holdings(s'.net);
      DropsOrder(s, s', gone);
    }
  }

  lemma OtherStepOrder(s: State, step: Step)
    requires !IsMinerStep(step) && !step.SwapBatch? && !step.SendOk? && !step.DrainStale? && !step.SendFail?
    requires Ticketed(s.g.finds, Pipeline(s))
    ensures Ticketed(s.g.finds, Pipeline(NetStep(s, step)))
  {
    hide Pipeline, Ticketed;
    var s' := NetStep(s, step);
    if Still(s, s') {
      StillPipeline(s, s');
    } else {
      ClearsOrder(s, s');
    }
  }

  lemma NetStepFrame(s: State, step: Step)
    requires !IsMinerStep(step)
    ensures var s' := NetStep(s, step);
            s'.miners == s.miners && s'.g.finds == s.g.finds && s'.g.found == s.g.found && s'.g.enqueued == s.g.enqueued
  {
  }

  lemma StillPipeline(s: State, s': State)
    requires Still(s, s')
    ensures Pipeline(s') == Pipeline(s)
  {
  }

  lemma NetStepOrder(s: State, step: Step)
    requires OrderInv(s) && !IsMinerStep(step)
    ensures OrderInv(NetStep(s, step))
  {
    hide NetStep, Ticketed, Pipeline, FindsInv;
    NetStepFrame(s, step);
    FindsFrame(s, NetStep(s, step));
    if step.SwapBatch? || step.SendOk? || step.DrainStale? || step.SendFail? {
      BatchStepOrder(s, step);
    } else {
      OtherStepOrder(s, step);
    }
  }

  lemma FindsFrame(s: State, s': State)
    requires FindsInv(s)
    requires s'.miners == s.miners && s'.g.finds == s.g.finds && s'.g.found == s.g.found && s'.g.enqueued == s.g.enqueued
    ensures FindsInv(s')
  {
  }

  lemma {:induction false} RunOrder(cfg: Config, threads: nat, steps: seq<Step>)
    ensures OrderInv(Run(cfg, threads, steps))
    decreases |steps|
  {
    if steps != [] {
      var s := Run(cfg, threads, steps[..|steps| - 1]);
      var step := steps[|steps| - 1];
      RunOrder(cfg, threads, steps[..|steps| - 1]);
      hide OrderInv;
      if IsMinerStep(step) { MinerStepOrder(cfg, s, step); } else { NetStepOrder(s, step); }
    }
  }

  /** Sends happen in queueing order, and no find is sent twice. */
  lemma SentOnceInOrder(cfg: Config, threads: nat, steps: seq<Step>, i: nat, j: nat)
    requires i < j < |Run(cfg, threads, steps).g.wire|
    ensures var wire := Run(cfg, threads, steps).g.wire;
            wire[i].item.ticket < wire[j].item.ticket && wire[i].item.share.id != wire[j].item.share.id
  {
    RunOrder(cfg, threads, steps);
    var s := Run(cfg, threads, steps);
    assert Pipeline(s)[i] == s.g.wire[i].item && Pipeline(s)[j] == s.g.wire[j].item;
  }

  // ---------- the funnel ----------

  ghost function Gated(miners: seq<Miner>): nat
  {
    if miners == [] then 0 else Gated(miners[..|miners| - 1]) + if InGate(miners[|miners| - 1]) then 1 else 0
  }

  ghost function Sum(xs: seq<nat>): nat
  {
    if xs == [] then 0 else Sum(xs[..|xs| - 1]) + xs[|xs| - 1]
  }

  lemma {:induction false} GatedUpdate(miners: seq<Miner>, t: nat, m: Miner)
    requires t < |miners|
    ensures Gated(miners[t := m]) == Gated(miners) + (if InGate(m) then 1 else 0) - (if InGate(miners[t]) then 1 else 0)
    decreases |miners|
  {
    var last := |miners| - 1;
    if t < last {
      GatedUpdate(miners[..last], t, m);
      assert miners[t := m][..last] == miners[..last][t := m];
    } else {
      assert miners[t := m][..last] == miners[..last];
    }
  }

  /** Every find is accounted for, and the mutex holder is the one miner between gate and push. */
  ghost predicate FunnelInv(s: State)
  {
    && |s.g.queue| <= SUBMIT_QUEUE_MAX
    && s.g.found == s.g.staleDrops + s.g.submitDrops + s.g.submitted + s.g.sendFails
                    + |s.g.queue| + |Holdings(s.net)| + Gated(s.miners) + Sum(s.g.behind)
    && (s.lock.Some? ==> s.lock.value < |s.miners|)
    && (forall t :: 0 <= t < |s.miners| ==> (s.miners[t].Enqueuing? <==> s.lock == Some(t)))
  }

  lemma MinerStepFunnel(cfg: Config, s: State, step: Step)
    requires FunnelInv(s) && IsMinerStep(step)
    ensures FunnelInv(MinerStep(cfg, s, step))
  {
    hide WorkBytes, Stamped, Gated, Sum;
    var s' := MinerStep(cfg, s, step);
    if step.t < |s.miners| {
      GatedUpdate(s.miners, step.t, s'.miners[step.t]);
      assert s'.miners == s.miners[step.t := s'.miners[step.t]];
    }
  }

  lemma SumAppend(xs: seq<nat>, x: nat)
    ensures Sum(xs + [x]) == Sum(xs) + x
  {
    assert (xs + [x])[..|xs|] == xs;
  }

  lemma NetStepFunnel(s: State, step: Step)
    requires FunnelInv(s) && !IsMinerStep(step)
    ensures FunnelInv(NetStep(s, step))
  {
    hide Gated, Sum, HandleJob;
    var s' := NetStep(s, step);
    if step.ReadJob? && s.net.Session? {
      HandleJobCounters(s.g, step.c);
    } else if step.SendFail? && s.net.Sending? && s.net.batch != [] {
      SumAppend(s.g.behind, |s.net.batch| - 1);
    }
  }

  lemma HandleJobCounters(g: Shared, c: Content)
    ensures var g' := HandleJob(g, c);
            && g'.queue == g.queue && g'.found == g.found && g'.staleDrops == g.staleDrops && g'.submitDrops == g.submitDrops
            && g'.submitted == g.submitted && g'.sendFails == g.sendFails && g'.behind == g.behind
  {
  }

  lemma {:induction false} NoneGated(threads: nat)
    ensures Gated(seq(threads, _ => Waiting)) == 0
  {
    if threads > 0 {
      NoneGated(threads - 1);
      assert seq(threads, _ => Waiting)[..threads - 1] == seq(threads - 1, _ => Waiting);
    }
  }

  /** Conservation of finds at every step of every interleaving. */
  lemma {:induction false} RunFunnel(cfg: Config, threads: nat, steps: seq<Step>)
    ensures FunnelInv(Run(cfg, threads, steps))
    decreases |steps|
  {
    if steps == [] {
      NoneGated(threads);
    } else {
      var s := Run(cfg, threads, steps[..|steps| - 1]);
      var step := steps[|steps| - 1];
      RunFunnel(cfg, threads, steps[..|steps| - 1]);
      hide FunnelInv;
      if IsMinerStep(step) { MinerStepFunnel(cfg, s, step); } else { NetStepFunnel(s, step); }
    }
  }

  lemma {:induction false} SumZero(xs: seq<nat>)
    ensures Sum(xs) == 0 <==> forall i :: 0 <= i < |xs| ==> xs[i] == 0
  {
    if xs != [] { SumZero(xs[..|xs| - 1]); }
  }

  /** The identity stated beside the counters holds at rest exactly when no failed send had items
      behind it in its batch. */
  lemma HeaderIdentity(cfg: Config, threads: nat, steps: seq<Step>)
    requires var s := Run(cfg, threads, steps); s.g.queue == [] && Holdings(s.net) == [] && Gated(s.miners) == 0
    ensures var g := Run(cfg, threads, steps).g;
            g.found == g.staleDrops + g.submitDrops + g.submitted + g.sendFails
            <==> forall i :: 0 <= i < |g.behind| ==> g.behind[i] == 0
  {
    RunFunnel(cfg, threads, steps);
    SumZero(Run(cfg, threads, steps).g.behind);
  }
}
