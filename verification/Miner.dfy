/**
  The multi-threaded miner of applications/tari_miner/src/miner.rs.

  N workers search nonces; each reports through a channel with one slot; a stream polls the
  channels; dropping the receivers is how workers are told to stop. The model is a step function: a
  run is any sequence of steps of any workers, polls and kills, and a step that cannot be taken
  leaves the state alone. What each worker tried to send, what was delivered and what was dropped
  with a receiver is kept as history.
*/
module Miner {
  import opened Bytes
  import opened Wrappers
  import opened Hasher

  const REPORTING_FREQUENCY: nat := 3_000_000

  /** What is mined, and the functions of a header that the miner calls. */
  datatype Job = Job(
    template: WireHeader, target: u64, threads: nat, shareMode: bool,
    difficulty: Difficulty, hash: Header -> seq<byte>, converts: Header -> bool)

  datatype Report = Report(
    miner: nat, target: u64, difficulty: u64, hashes: u64, header: Option<WireHeader>, height: u64, lastNonce: u64)

  datatype Outcome = Sent | Full | Disconnected

  /** One `try_send`: the report, how it ended, and how many reports had been read by then. */
  datatype Attempt = Attempt(report: Report, outcome: Outcome, read: nat)

  /** Where a worker stands in its loop. */
  datatype Pc = Hash | Found(d: u64) | Status(d: u64) | Advance | Stopped

  datatype Worker = Worker(
    start: u64, hasher: Hashing, pc: Pc, evals: nat, hashed: seq<Header>,
    log: seq<Attempt>, delivered: seq<Report>, discarded: seq<Report>)

  /** A receiver's single slot. */
  type Slot = Option<Report>

  datatype Poll = Pending | Ready(item: Option<Report>)

  /** `channels` holds one slot per worker while the stream keeps the receivers, and is empty otherwise. */
  datatype State = State(workers: seq<Worker>, channels: seq<Slot>, items: seq<Report>, polls: seq<Poll>)

  /** The environment chooses start nonces, which ready channel is selected, and the clock. */
  datatype Step = PollNext(nonces: seq<u64>, choice: nat) | KillThreads | Work(worker: nat, now: u64)

  // ---------------------------------------------------------------------------------------------
  // The worker

  function TrySendOutcome(connected: bool, slot: Slot): Outcome {
    if !connected then Disconnected else if slot.Some? then Full else Sent
  }

  function MakeReport(job: Job, i: nat, h: Hashing, d: u64, found: bool): Report {
    var header := if found then Some(WireHeader(h.header, job.hash(h.header))) else None;
    Report(i, job.target, d, h.hashes, header, h.header.height, h.header.nonce)
  }

  function AfterFound(h: Hashing, d: u64): Pc {
    if h.header.nonce % REPORTING_FREQUENCY == 0 then Status(d) else Advance
  }

  function Logged(w: Worker, r: Report, outcome: Outcome): Worker {
    w.(log := w.log + [Attempt(r, outcome, |w.delivered|)])
  }

  function Filled(slot: Slot, r: Report, outcome: Outcome): Slot {
    if outcome.Sent? then Some(r) else slot
  }

  function WorkerStep(job: Job, i: nat, w: Worker, connected: bool, slot: Slot, now: u64): (Worker, Slot) {
    match w.pc
    case Hash =>
      var d := job.difficulty(w.hasher.header);
      var h := w.hasher.Counted();
      (w.(hasher := h, evals := w.evals + 1, hashed := w.hashed + [w.hasher.header],
          pc := if d >= job.target then Found(d) else AfterFound(h, d)), slot)
    case Found(d) =>
      var r, outcome := MakeReport(job, i, w.hasher, d, true), TrySendOutcome(connected, slot);
      (Logged(w, r, outcome).(pc := if job.shareMode then AfterFound(w.hasher, d) else Stopped),
       Filled(slot, r, outcome))
    case Status(d) =>
      var r, outcome := MakeReport(job, i, w.hasher, d, false), TrySendOutcome(connected, slot);
      var h := if job.shareMode || outcome.Disconnected? then w.hasher else w.hasher.Forward(now);
      (Logged(w, r, outcome).(hasher := h, pc := if outcome.Disconnected? then Stopped else Advance),
       Filled(slot, r, outcome))
    case Advance => (w.(hasher := w.hasher.NextNonce(), pc := Hash), slot)
    case Stopped => (w, slot)
  }

  // ---------------------------------------------------------------------------------------------
  // The stream

  const INIT := State([], [], [], [])

  /** A thread panics at once if the header does not convert. */
  function Fresh(job: Job, start: u64): Worker {
    var pc := if job.converts(job.template.header) then Hash else Stopped;
    Worker(start, Hashing(job.template.header.(nonce := start), 0), pc, 0, [], [], [], [])
  }

  /** A channel is ready when it holds a report, or when its sender is gone. */
  predicate ChannelReady(s: State, i: nat) {
    i < |s.channels| && i < |s.workers| && (s.channels[i].Some? || s.workers[i].pc.Stopped?)
  }

  function SlotSeq(slot: Slot): seq<Report> {
    if slot.Some? then [slot.value] else []
  }

  function Unread(s: State, i: nat): seq<Report> {
    if i < |s.channels| then SlotSeq(s.channels[i]) else []
  }

  /** Dropping the receivers drops what they still hold. */
  function Clear(s: State): State {
    s.(channels := [],
       workers := seq(|s.workers|, i requires 0 <= i < |s.workers| =>
                        s.workers[i].(discarded := s.workers[i].discarded + Unread(s, i))))
  }

  function Polled(s: State, poll: Poll): State {
    s.(polls := s.polls + [poll])
  }

  function Deliver(s: State, i: nat, r: Report): State
    requires i < |s.workers| && i < |s.channels|
  {
    Polled(s, Ready(Some(r))).(
      channels := s.channels[i := None],
      workers := s.workers[i := s.workers[i].(delivered := s.workers[i].delivered + [r])],
      items := s.items + [r])
  }

  function Receive(job: Job, s: State, i: nat): State
    requires ChannelReady(s, i)
  {
    match s.channels[i]
    case None => Polled(s, Ready(None))
    case Some(r) => if r.header.Some? && !job.shareMode then Clear(Deliver(s, i, r)) else Deliver(s, i, r)
  }

  function Next(job: Job, s: State, step: Step): State {
    match step
    case PollNext(nonces, choice) =>
      if s.workers == [] && job.threads > 0 then
        if |nonces| != job.threads then s
        else Polled(s, Pending).(
               workers := seq(|nonces|, i requires 0 <= i < |nonces| => Fresh(job, nonces[i])),
               channels := seq(|nonces|, i => None))
      else if job.threads == 0 || s.channels == [] then Polled(s, Ready(None))
      else if forall i :: 0 <= i < |s.channels| ==> !ChannelReady(s, i) then Polled(s, Pending)
      else if ChannelReady(s, choice) then Receive(job, s, choice)
      else s
    case KillThreads => Clear(s)
    case Work(i, now) =>
      if i >= |s.workers| then s
      else if s.channels == [] then
        s.(workers := s.workers[i := WorkerStep(job, i, s.workers[i], false, None, now).0])
      else if i < |s.channels| then
        var (w, slot) := WorkerStep(job, i, s.workers[i], true, s.channels[i], now);
        s.(workers := s.workers[i := w], channels := s.channels[i := slot])
      else s
  }

  function Exec(job: Job, s: State, steps: seq<Step>): State
    decreases |steps|
  {
    if steps == [] then s else Exec(job, Next(job, s, steps[0]), steps[1..])
  }

  // ---------------------------------------------------------------------------------------------
  // What every reachable state satisfies

  /** The template header, changed in nothing but nonce and timestamp, and never back in time. */
  predicate MinedFrom(job: Job, h: Header) {
    && h == job.template.header.(nonce := h.nonce, timestamp := h.timestamp)
    && h.timestamp >= job.template.header.timestamp
    && (job.shareMode ==> h.timestamp == job.template.header.timestamp)
  }

  /** What a report of worker i, started at nonce `start`, may say. */
  predicate Honest(job: Job, i: nat, start: u64, r: Report) {
    && r.miner == i && r.target == job.target && r.height == job.template.header.height
    && 1 <= r.hashes
    && (r.hashes < U64 - 1 ==> r.lastNonce == (start + r.hashes - 1) % U64)
    && match r.header
       case Some(WireHeader(h, hash)) =>
         && MinedFrom(job, h) && hash == job.hash(h)
         && h.nonce == r.lastNonce && r.difficulty == job.difficulty(h) >= job.target
       case None =>
         r.lastNonce % REPORTING_FREQUENCY == 0 && (!job.shareMode ==> r.difficulty < job.target)
  }

  function Saturated(evals: nat): nat {
    if evals < U64 then evals else U64 - 1
  }

  predicate WorkerInv(job: Job, i: nat, w: Worker) {
    && MinedFrom(job, w.hasher.header)
    && w.hasher.hashes == Saturated(w.evals)
    && (w.pc.Hash? ==> w.hasher.header.nonce == (w.start + w.evals) % U64)
    && (!w.pc.Hash? && 1 <= w.evals ==> w.hasher.header.nonce == (w.start + w.evals - 1) % U64)
    && (w.evals == 0 ==> (w.pc.Hash? || w.pc.Stopped?) && w.log == [])
    && (!job.converts(job.template.header) ==> w.evals == 0 && w.pc.Stopped?)
    && (!job.shareMode && !w.pc.Stopped? ==> forall k :: 0 <= k < |w.log| ==> w.log[k].report.header.None?)
    && (w.pc.Found? ==> w.pc.d == job.difficulty(w.hasher.header) >= job.target)
    && (w.pc.Status? ==> w.hasher.header.nonce % REPORTING_FREQUENCY == 0 && (!job.shareMode ==> w.pc.d < job.target))
    && (forall k :: 0 <= k < |w.log| ==> Honest(job, i, w.start, w.log[k].report))
  }

  function Accepted(log: seq<Attempt>): seq<Report> {
    if log == [] then []
    else
      var last := log[|log| - 1];
      Accepted(log[..|log| - 1]) + if last.outcome.Sent? then [last.report] else []
  }

  /**
    How each attempt ended: sent when everything accepted before had been read, refused when exactly
    one accepted report was unread, and once disconnected always disconnected.
  */
  predicate AttemptsExplained(log: seq<Attempt>) {
    && (forall k :: 0 <= k < |log| && log[k].outcome.Sent? ==> |Accepted(log[..k])| == log[k].read)
    && (forall k :: 0 <= k < |log| && log[k].outcome.Full? ==> |Accepted(log[..k])| == log[k].read + 1)
    && (forall k, l :: 0 <= k < l < |log| && log[k].outcome.Disconnected? ==> log[l].outcome.Disconnected?)
  }

  predicate ChannelInv(w: Worker, connected: bool, slot: Slot) {
    && Accepted(w.log) == w.delivered + SlotSeq(slot) + w.discarded
    && |w.discarded| <= 1
    && AttemptsExplained(w.log)
    && (connected ==> w.discarded == [] && forall k :: 0 <= k < |w.log| ==> !w.log[k].outcome.Disconnected?)
    && (!connected ==> slot == None)
  }

  function From(items: seq<Report>, i: nat): seq<Report> {
    if items == [] then []
    else
      var last := items[|items| - 1];
      From(items[..|items| - 1], i) + if last.miner == i then [last] else []
  }

  predicate ItemsInv(s: State) {
    && (forall i :: 0 <= i < |s.workers| ==> From(s.items, i) == s.workers[i].delivered)
    && (forall k :: 0 <= k < |s.items| ==> s.items[k].miner < |s.workers|)
    && (s.workers == [] ==> s.items == [])
  }

  /** Outside share mode a header is the last item of the stream, and ends it. */
  predicate HeaderIsLast(job: Job, s: State) {
    !job.shareMode ==>
      forall k :: 0 <= k < |s.items| && s.items[k].header.Some? ==> k == |s.items| - 1 && s.channels == []
  }

  function SlotOf(s: State, i: nat): Slot {
    if i < |s.channels| then s.channels[i] else None
  }

  predicate Core(job: Job, s: State) {
    && (s.channels == [] || |s.channels| == |s.workers|)
    && (s.workers != [] ==> |s.workers| == job.threads)
    && (forall i :: 0 <= i < |s.workers| ==> WorkerInv(job, i, s.workers[i]))
    && (forall i :: 0 <= i < |s.workers| ==> ChannelInv(s.workers[i], s.channels != [], SlotOf(s, i)))
    && ItemsInv(s)
  }

  predicate Inv(job: Job, s: State) {
    Core(job, s) && HeaderIsLast(job, s)
  }

  // ---------------------------------------------------------------------------------------------
  // Every step keeps the invariant

  lemma NextNonceMod(start: nat, n: nat)
    ensures ((start + n) % U64 + 1) % U64 == (start + n + 1) % U64
  {
  }

  lemma WorkerStepKeepsWorker(job: Job, i: nat, w: Worker, connected: bool, slot: Slot, now: u64)
    requires WorkerInv(job, i, w)
    ensures WorkerInv(job, i, WorkerStep(job, i, w, connected, slot, now).0)
  {
    if w.pc.Advance? {
      NextNonceMod(w.start, w.evals - 1);
    }
  }

  lemma AcceptedSnoc(log: seq<Attempt>, a: Attempt)
    ensures Accepted(log + [a]) == Accepted(log) + if a.outcome.Sent? then [a.report] else []
  {
  }

  lemma ExplainedSnoc(log: seq<Attempt>, a: Attempt)
    requires AttemptsExplained(log)
    requires a.outcome.Sent? ==> |Accepted(log)| == a.read
    requires a.outcome.Full? ==> |Accepted(log)| == a.read + 1
    requires !a.outcome.Disconnected? ==> forall k :: 0 <= k < |log| ==> !log[k].outcome.Disconnected?
    ensures AttemptsExplained(log + [a])
  {
    hide Accepted;
    var log' := log + [a];
    assert log'[..|log|] == log;
    forall k | 0 <= k < |log| ensures log'[k] == log[k] && log'[..k] == log[..k] {
    }
  }

  lemma AttemptExplained(w: Worker, connected: bool, slot: Slot, r: Report)
    requires ChannelInv(w, connected, slot)
    ensures var outcome := TrySendOutcome(connected, slot);
            ChannelInv(Logged(w, r, outcome), connected, Filled(slot, r, outcome))
  {
    hide Accepted, AttemptsExplained;
    var outcome := TrySendOutcome(connected, slot);
    var a := Attempt(r, outcome, |w.delivered|);
    AcceptedSnoc(w.log, a);
    ExplainedSnoc(w.log, a);
  }

  lemma WorkerStepKeepsChannel(job: Job, i: nat, w: Worker, connected: bool, slot: Slot, now: u64)
    requires ChannelInv(w, connected, slot)
    ensures var (w', slot') := WorkerStep(job, i, w, connected, slot, now); ChannelInv(w', connected, slot')
    ensures WorkerStep(job, i, w, connected, slot, now).0.delivered == w.delivered
  {
    hide Accepted, AttemptsExplained;
    if w.pc.Found? {
      AttemptExplained(w, connected, slot, MakeReport(job, i, w.hasher, w.pc.d, true));
    } else if w.pc.Status? {
      AttemptExplained(w, connected, slot, MakeReport(job, i, w.hasher, w.pc.d, false));
    }
  }

  lemma WorkKeepsInv(job: Job, s: State, i: nat, now: u64)
    requires Inv(job, s)
    ensures Inv(job, Next(job, s, Work(i, now)))
  {
    hide WorkerInv, ChannelInv, WorkerStep, From;
    if i < |s.workers| {
      var w, connected, slot := s.workers[i], s.channels != [], SlotOf(s, i);
      assert connected ==> i < |s.channels|;
      WorkerStepKeepsWorker(job, i, w, connected, slot, now);
      WorkerStepKeepsChannel(job, i, w, connected, slot, now);
      if !connected {
        SlotEmpty(WorkerStep(job, i, w, false, None, now).0, WorkerStep(job, i, w, false, None, now).1);
      }
    }
  }

  lemma SlotEmpty(w: Worker, slot: Slot)
    requires ChannelInv(w, false, slot)
    ensures slot == None
  {
  }

  lemma ClearChannel(w: Worker, connected: bool, slot: Slot)
    requires ChannelInv(w, connected, slot)
    ensures ChannelInv(w.(discarded := w.discarded + SlotSeq(slot)), false, None)
  {
  }

  lemma DiscardKeepsWorker(job: Job, i: nat, w: Worker, discarded: seq<Report>)
    requires WorkerInv(job, i, w)
    ensures WorkerInv(job, i, w.(discarded := discarded))
  {
  }

  lemma ClearKeepsCore(job: Job, s: State)
    requires Core(job, s)
    ensures Core(job, Clear(s))
  {
    hide WorkerInv, ChannelInv, From, SlotSeq;
    forall i | 0 <= i < |s.workers|
      ensures WorkerInv(job, i, Clear(s).workers[i]) && ChannelInv(Clear(s).workers[i], false, None)
    {
      var w := s.workers[i];
      assert Unread(s, i) == SlotSeq(SlotOf(s, i)) by { NoSlot(); }
      ClearChannel(w, s.channels != [], SlotOf(s, i));
      DiscardKeepsWorker(job, i, w, w.discarded + Unread(s, i));
    }
  }

  lemma NoSlot()
    ensures SlotSeq(None) == []
  {
  }

  lemma FromSnoc(items: seq<Report>, r: Report, i: nat)
    ensures From(items + [r], i) == From(items, i) + if r.miner == i then [r] else []
  {
  }

  lemma {:induction false} AcceptedHonest(job: Job, i: nat, start: u64, log: seq<Attempt>, r: Report)
    requires forall k :: 0 <= k < |log| ==> Honest(job, i, start, log[k].report)
    requires r in Accepted(log)
    ensures Honest(job, i, start, r)
  {
    hide Honest;
    var last := log[|log| - 1];
    if r != last.report {
      AcceptedHonest(job, i, start, log[..|log| - 1], r);
    }
  }

  lemma DeliverChannel(job: Job, i: nat, w: Worker, r: Report)
    requires WorkerInv(job, i, w) && ChannelInv(w, true, Some(r))
    ensures var w' := w.(delivered := w.delivered + [r]); WorkerInv(job, i, w') && ChannelInv(w', true, None)
    ensures Honest(job, i, w.start, r)
  {
    assert r in Accepted(w.log);
    AcceptedHonest(job, i, w.start, w.log, r);
  }

  lemma DeliverKeepsCore(job: Job, s: State, i: nat, r: Report)
    requires Core(job, s) && i < |s.channels| && s.channels[i] == Some(r)
    ensures Core(job, Deliver(s, i, r))
  {
    hide WorkerInv, ChannelInv, From, Honest;
    var w := s.workers[i];
    DeliverChannel(job, i, w, r);
    assert r.miner == i by { HonestMiner(job, i, w.start, r); }
    forall j | 0 <= j < |s.workers|
      ensures From(s.items + [r], j) == From(s.items, j) + if j == i then [r] else []
    {
      FromSnoc(s.items, r, j);
    }
  }

  lemma HonestMiner(job: Job, i: nat, start: u64, r: Report)
    requires Honest(job, i, start, r)
    ensures r.miner == i
  {
  }

  lemma ReceiveKeepsInv(job: Job, s: State, i: nat)
    requires Inv(job, s) && ChannelReady(s, i)
    ensures Inv(job, Receive(job, s, i))
  {
    hide WorkerInv, ChannelInv, From;
    match s.channels[i]
    case None =>
    case Some(r) =>
      DeliverKeepsCore(job, s, i, r);
      ClearKeepsCore(job, Deliver(s, i, r));
  }

  lemma FreshInv(job: Job, i: nat, start: u64)
    ensures WorkerInv(job, i, Fresh(job, start)) && ChannelInv(Fresh(job, start), true, None)
  {
  }

  lemma StartKeepsInv(job: Job, s: State, nonces: seq<u64>, choice: nat)
    requires Inv(job, s) && s.workers == [] && job.threads > 0
    ensures Inv(job, Next(job, s, PollNext(nonces, choice)))
  {
    hide WorkerInv, ChannelInv, From, Fresh;
    if |nonces| == job.threads {
      forall i | 0 <= i < |nonces|
        ensures WorkerInv(job, i, Fresh(job, nonces[i])) && ChannelInv(Fresh(job, nonces[i]), true, None)
        ensures From([], i) == Fresh(job, nonces[i]).delivered
      {
        FreshInv(job, i, nonces[i]);
        FreshHistory(job, nonces[i], i);
      }
    }
  }

  lemma FreshHistory(job: Job, start: u64, i: nat)
    ensures From([], i) == Fresh(job, start).delivered
  {
  }

  lemma StepKeepsInv(job: Job, s: State, step: Step)
    requires Inv(job, s)
    ensures Inv(job, Next(job, s, step))
  {
    hide WorkerInv, ChannelInv, From, WorkerStep;
    match step
    case PollNext(nonces, choice) =>
      if s.workers == [] && job.threads > 0 {
        StartKeepsInv(job, s, nonces, choice);
      } else if ChannelReady(s, choice) {
        ReceiveKeepsInv(job, s, choice);
      }
    case KillThreads =>
      ClearKeepsCore(job, s);
    case Work(i, now) =>
      WorkKeepsInv(job, s, i, now);
  }

  lemma {:induction false} ExecKeepsInv(job: Job, s: State, steps: seq<Step>)
    requires Inv(job, s)
    ensures Inv(job, Exec(job, s, steps))
    decreases |steps|
  {
    hide Inv, Next;
    if steps != [] {
      StepKeepsInv(job, s, steps[0]);
      ExecKeepsInv(job, Next(job, s, steps[0]), steps[1..]);
    }
  }

  lemma ReachableInv(job: Job, steps: seq<Step>)
    ensures Inv(job, Exec(job, INIT, steps))
  {
    ExecKeepsInv(job, INIT, steps);
  }

  // ---------------------------------------------------------------------------------------------
  // Whole runs: every item of the stream

  lemma {:induction false} InFrom(items: seq<Report>, r: Report)
    requires r in items
    ensures r in From(items, r.miner)
  {
    var last := |items| - 1;
    if r != items[last] {
      InFrom(items[..last], r);
    }
  }

  /**
    In every interleaving, whatever the stream yields is honest: a header is the template with only
    nonce and timestamp changed, its timestamp is not earlier (in share mode, the same), and the
    reported difficulty is its own and meets the target.
  */
  lemma EveryItemHonest(job: Job, steps: seq<Step>, k: nat)
    requires k < |Exec(job, INIT, steps).items|
    ensures var s := Exec(job, INIT, steps);
            var r := s.items[k];
            r.miner < |s.workers| && Honest(job, r.miner, s.workers[r.miner].start, r)
  {
    hide Honest, Exec, Accepted;
    var s := Exec(job, INIT, steps);
    var r := s.items[k];
    ReachableInv(job, steps);
    InFrom(s.items, r);
    var w := s.workers[r.miner];
    assert WorkerInv(job, r.miner, w) && ChannelInv(w, s.channels != [], SlotOf(s, r.miner));
    assert r in w.delivered;
    assert r in Accepted(w.log);
    AcceptedHonest(job, r.miner, w.start, w.log, r);
  }

  /**
    Every report a worker produced was delivered once, still waits in its slot, was dropped with the
    receiver, or was refused; the stream holds exactly the delivered ones, in order.
  */
  lemma ReportsConserved(job: Job, steps: seq<Step>, i: nat)
    requires i < |Exec(job, INIT, steps).workers|
    ensures var s := Exec(job, INIT, steps);
            var w := s.workers[i];
            && Accepted(w.log) == w.delivered + Unread(s, i) + w.discarded
            && From(s.items, i) == w.delivered
            && |Unread(s, i)| + |w.discarded| <= 1
            && (w.discarded != [] ==> s.channels == [])
            && AttemptsExplained(w.log)
  {
    hide Exec, Accepted, AttemptsExplained, From, WorkerInv;
    var s := Exec(job, INIT, steps);
    ReachableInv(job, steps);
    assert ChannelInv(s.workers[i], s.channels != [], SlotOf(s, i));
  }

  lemma HonestNonces(job: Job, i: nat, start: u64, r: Report, r': Report)
    requires Honest(job, i, start, r) && Honest(job, i, start, r')
    requires r.hashes < r'.hashes < U64 - 1
    ensures r.lastNonce != r'.lastNonce
  {
  }

  /** In every run, two attempts of one worker at different unsaturated counts name different nonces. */
  lemma NoncesDistinct(job: Job, steps: seq<Step>, i: nat, k: nat, l: nat)
    requires i < |Exec(job, INIT, steps).workers|
    requires var log := Exec(job, INIT, steps).workers[i].log;
             k < |log| && l < |log| && log[k].report.hashes < log[l].report.hashes < U64 - 1
    ensures var log := Exec(job, INIT, steps).workers[i].log; log[k].report.lastNonce != log[l].report.lastNonce
  {
    hide Exec, Honest, ChannelInv, From;
    ReachableInv(job, steps);
    var w := Exec(job, INIT, steps).workers[i];
    assert WorkerInv(job, i, w);
    HonestNonces(job, i, w.start, w.log[k].report, w.log[l].report);
  }

  /** A template that does not convert is never hashed and nothing is ever yielded for it. */
  lemma BadTemplate(job: Job, steps: seq<Step>)
    requires !job.converts(job.template.header)
    ensures var s := Exec(job, INIT, steps);
            s.items == [] && forall i :: 0 <= i < |s.workers| ==> s.workers[i].evals == 0
  {
    hide Exec, Honest;
    ReachableInv(job, steps);
    var s := Exec(job, INIT, steps);
    forall i | 0 <= i < |s.workers| ensures s.workers[i].evals == 0 && s.workers[i].delivered == [] {
      assert WorkerInv(job, i, s.workers[i]) && ChannelInv(s.workers[i], s.channels != [], SlotOf(s, i));
    }
    if s.items != [] {
      InFrom(s.items, s.items[0]);
    }
  }

  // ---------------------------------------------------------------------------------------------
  // Whole runs: everything due is reported

  /** The reports a worker owes for its count-th header: the header if it meets the target, and its status. */
  function DueAt(job: Job, i: nat, count: nat, h: Header): seq<Report> {
    var d, hashes := job.difficulty(h), Saturated(count);
    (if d >= job.target then [Report(i, job.target, d, hashes, Some(WireHeader(h, job.hash(h))), h.height, h.nonce)]
     else []) +
    (if (d < job.target || job.shareMode) && h.nonce % 3_000_000 == 0 then
       [Report(i, job.target, d, hashes, None, h.height, h.nonce)]
     else [])
  }

  function Due(job: Job, i: nat, hashed: seq<Header>): seq<Report> {
    if hashed == [] then []
    else
      var n := |hashed| - 1;
      Due(job, i, hashed[..n]) + DueAt(job, i, n + 1, hashed[n])
  }

  function Reports(log: seq<Attempt>): seq<Report> {
    if log == [] then [] else Reports(log[..|log| - 1]) + [log[|log| - 1].report]
  }

  /** What a worker is just about to report. */
  function AboutTo(job: Job, i: nat, w: Worker): seq<Report> {
    match w.pc
    case Found(_) => DueAt(job, i, w.evals, w.hasher.header)
    case Status(d) =>
      [Report(i, job.target, d, Saturated(w.evals), None, w.hasher.header.height, w.hasher.header.nonce)]
    case _ => []
  }

  /** After this attempt the worker returns: its header ends the job, or nobody listens any more. */
  predicate LastAttempt(job: Job, a: Attempt) {
    (!job.shareMode && a.report.header.Some?) || (a.report.header.None? && a.outcome.Disconnected?)
  }

  predicate Told(job: Job, i: nat, w: Worker) {
    && w.evals == |w.hashed| && w.hasher.hashes == Saturated(w.evals)
    && (forall k :: 0 <= k < |w.hashed| ==> w.hashed[k].nonce == (w.start + k) % U64 && MinedFrom(job, w.hashed[k]))
    && (w.pc.Hash? ==> w.hasher.header.nonce == (w.start + w.evals) % U64)
    && (w.pc.Found? || w.pc.Status? || w.pc.Advance? ==>
          w.hashed != [] && w.hasher.header.nonce == w.hashed[|w.hashed| - 1].nonce)
    && (w.pc.Found? || w.pc.Status? ==>
          w.hasher.header == w.hashed[|w.hashed| - 1] && w.pc.d == job.difficulty(w.hasher.header))
    && (w.pc.Found? ==> w.pc.d >= job.target)
    && MinedFrom(job, w.hasher.header)
    && Due(job, i, w.hashed) == Reports(w.log) + AboutTo(job, i, w)
    && (w.pc.Stopped? <==>
          !job.converts(job.template.header) || (w.log != [] && LastAttempt(job, w.log[|w.log| - 1])))
  }

  predicate AllTold(job: Job, s: State) {
    forall i :: 0 <= i < |s.workers| ==> Told(job, i, s.workers[i])
  }

  lemma DueSnoc(job: Job, i: nat, hashed: seq<Header>, h: Header)
    ensures Due(job, i, hashed + [h]) == Due(job, i, hashed) + DueAt(job, i, |hashed| + 1, h)
  {
    assert (hashed + [h])[..|hashed|] == hashed;
  }

  lemma ReportsSnoc(log: seq<Attempt>, a: Attempt)
    ensures Reports(log + [a]) == Reports(log) + [a.report]
  {
    assert (log + [a])[..|log|] == log;
  }

  lemma HashTold(job: Job, i: nat, w: Worker, connected: bool, slot: Slot, now: u64)
    requires Told(job, i, w) && w.pc.Hash?
    ensures Told(job, i, WorkerStep(job, i, w, connected, slot, now).0)
  {
    hide Due, Reports;
    DueSnoc(job, i, w.hashed, w.hasher.header);
  }

  lemma FoundTold(job: Job, i: nat, w: Worker, connected: bool, slot: Slot, now: u64)
    requires Told(job, i, w) && w.pc.Found?
    ensures Told(job, i, WorkerStep(job, i, w, connected, slot, now).0)
  {
    hide Due, Reports, MinedFrom;
    var r := MakeReport(job, i, w.hasher, w.pc.d, true);
    var w' := WorkerStep(job, i, w, connected, slot, now).0;
    ReportsSnoc(w.log, Attempt(r, TrySendOutcome(connected, slot), |w.delivered|));
    assert DueAt(job, i, w.evals, w.hasher.header) == [r] + AboutTo(job, i, w');
    assert Reports(w.log) + ([r] + AboutTo(job, i, w')) == Reports(w.log) + [r] + AboutTo(job, i, w');
  }

  lemma StatusTold(job: Job, i: nat, w: Worker, connected: bool, slot: Slot, now: u64)
    requires Told(job, i, w) && w.pc.Status?
    ensures Told(job, i, WorkerStep(job, i, w, connected, slot, now).0)
  {
    hide Due, Reports, DueAt;
    var r := MakeReport(job, i, w.hasher, w.pc.d, false);
    ReportsSnoc(w.log, Attempt(r, TrySendOutcome(connected, slot), |w.delivered|));
  }

  lemma AdvanceTold(job: Job, i: nat, w: Worker, connected: bool, slot: Slot, now: u64)
    requires Told(job, i, w) && w.pc.Advance?
    ensures Told(job, i, WorkerStep(job, i, w, connected, slot, now).0)
  {
    hide Due, Reports, DueAt;
    NextNonceMod(w.start, w.evals - 1);
  }

  lemma WorkerStepTells(job: Job, i: nat, w: Worker, connected: bool, slot: Slot, now: u64)
    requires Told(job, i, w)
    ensures Told(job, i, WorkerStep(job, i, w, connected, slot, now).0)
  {
    hide Told;
    match w.pc
    case Hash => HashTold(job, i, w, connected, slot, now);
    case Found(_) => FoundTold(job, i, w, connected, slot, now);
    case Status(_) => StatusTold(job, i, w, connected, slot, now);
    case Advance => AdvanceTold(job, i, w, connected, slot, now);
    case Stopped =>
  }

  lemma FreshTold(job: Job, i: nat, start: u64)
    ensures Told(job, i, Fresh(job, start))
  {
  }

  lemma BooksAside(job: Job, i: nat, w: Worker, delivered: seq<Report>, discarded: seq<Report>)
    requires Told(job, i, w)
    ensures Told(job, i, w.(delivered := delivered, discarded := discarded))
  {
  }

  lemma StepTells(job: Job, s: State, step: Step)
    requires AllTold(job, s)
    ensures AllTold(job, Next(job, s, step))
  {
    hide Told, WorkerStep, Fresh;
    var s' := Next(job, s, step);
    forall i | 0 <= i < |s'.workers| ensures Told(job, i, s'.workers[i]) {
      if i >= |s.workers| {
        FreshTold(job, i, step.nonces[i]);
      } else if step.Work? && step.worker == i {
        WorkerStepTells(job, i, s.workers[i], s.channels != [], SlotOf(s, i), step.now);
      } else {
        BooksAside(job, i, s.workers[i], s'.workers[i].delivered, s'.workers[i].discarded);
      }
    }
  }

  lemma {:induction false} ExecTells(job: Job, s: State, steps: seq<Step>)
    requires AllTold(job, s)
    ensures AllTold(job, Exec(job, s, steps))
    decreases |steps|
  {
    hide AllTold, Next;
    if steps != [] {
      StepTells(job, s, steps[0]);
      ExecTells(job, Next(job, s, steps[0]), steps[1..]);
    }
  }

  /**
    In every run a worker hashes the nonces from its start upwards, one after the other, and reports
    exactly what is due for them: every header that meets the target, and a status at every reporting
    nonce. It stops when the header does not convert, after a header outside share mode, and after a
    status that found no receiver, and at no other time.
  */
  lemma ReportsExact(job: Job, steps: seq<Step>, i: nat)
    requires i < |Exec(job, INIT, steps).workers|
    ensures var w := Exec(job, INIT, steps).workers[i];
            && |w.hashed| == w.evals
            && (forall k :: 0 <= k < |w.hashed| ==>
                  w.hashed[k].nonce == (w.start + k) % U64 && MinedFrom(job, w.hashed[k]))
            && Due(job, i, w.hashed) == Reports(w.log) + AboutTo(job, i, w)
            && (w.pc.Stopped? <==>
                  !job.converts(job.template.header) || (w.log != [] && LastAttempt(job, w.log[|w.log| - 1])))
  {
    hide Exec, Due, AboutTo;
    ExecTells(job, INIT, steps);
    assert Told(job, i, Exec(job, INIT, steps).workers[i]);
  }

  /** The first poll starts one worker per thread, each from its own nonce, with an empty slot. */
  lemma FirstPoll(job: Job, s: State, nonces: seq<u64>, choice: nat)
    requires s.workers == [] && 0 < job.threads == |nonces|
    ensures var s' := Next(job, s, PollNext(nonces, choice));
            && |s'.workers| == |s'.channels| == job.threads && s'.items == s.items
            && forall i :: 0 <= i < job.threads ==>
                 && s'.workers[i].start == nonces[i] && s'.channels[i] == None
                 && s'.workers[i].hasher.header == job.template.header.(nonce := nonces[i])
                 && s'.workers[i].evals == 0 && s'.workers[i].log == []
  {
  }

  /** Outside share mode a status report moves the clock of the header forward to now, and nothing else of it. */
  lemma StatusMovesClock(job: Job, i: nat, w: Worker, connected: bool, slot: Slot, now: u64)
    requires w.pc.Status?
    ensures var h, h' := w.hasher.header, WorkerStep(job, i, w, connected, slot, now).0.hasher.header;
            && h' == h.(timestamp := h'.timestamp)
            && h'.timestamp == if job.shareMode || !connected || now <= h.timestamp then h.timestamp else now
  {
  }

  // ---------------------------------------------------------------------------------------------
  // Whole runs: what a poll answers

  /** When each answer is given: the condition is on the stream, its slots and its workers. */
  predicate Answers(job: Job, s: State, choice: nat, poll: Poll) {
    match poll
    case Pending =>
      && job.threads > 0
      && (s.workers == [] ||
          (s.channels != [] && forall i :: 0 <= i < |s.channels| && i < |s.workers| ==>
             s.channels[i].None? && !s.workers[i].pc.Stopped?))
    case Ready(None) =>
      || job.threads == 0
      || (s.workers != [] && s.channels == [])
      || (choice < |s.channels| && choice < |s.workers|
          && s.channels[choice].None? && s.workers[choice].pc.Stopped?)
    case Ready(Some(r)) => job.threads > 0 && choice < |s.channels| && s.channels[choice] == Some(r)
  }

  lemma PollAnswer(job: Job, s: State, nonces: seq<u64>, choice: nat, poll: Poll)
    requires Inv(job, s) && Next(job, s, PollNext(nonces, choice)).polls != s.polls
    ensures var s' := Next(job, s, PollNext(nonces, choice));
            && |s'.polls| == |s.polls| + 1 && s'.polls[..|s.polls|] == s.polls
            && (s'.polls[|s.polls|] == poll <==> Answers(job, s, choice, poll))
  {
    hide WorkerInv, ChannelInv, From, Fresh;
    assert forall i :: 0 <= i < |s.channels| ==>
      (ChannelReady(s, i) <==> s.channels[i].Some? || s.workers[i].pc.Stopped?);
  }

  lemma LastStep(job: Job, s: State, steps: seq<Step>)
    requires steps != []
    ensures var n := |steps| - 1; Exec(job, s, steps) == Next(job, Exec(job, s, steps[..n]), steps[n])
  {
    hide Next, Exec;
    var n := |steps| - 1;
    assert steps == steps[..n] + [steps[n]];
    ExecConcat(job, s, steps[..n], [steps[n]]);
    Unfold(job, Exec(job, s, steps[..n]), [steps[n]]);
    Unfold(job, Next(job, Exec(job, s, steps[..n]), steps[n]), []);
  }

  lemma OnlyPollsAnswer(job: Job, s: State, step: Step)
    ensures Next(job, s, step).polls != s.polls ==> step.PollNext?
  {
  }

  /** In every run, each answer was given by a poll, in a state that called for exactly that answer. */
  lemma {:induction false} PollsExplained(job: Job, steps: seq<Step>, k: nat) returns (n: nat)
    requires k < |Exec(job, INIT, steps).polls|
    ensures n < |steps| && steps[n].PollNext?
    ensures var s := Exec(job, INIT, steps[..n]);
            |s.polls| == k && Answers(job, s, steps[n].choice, Exec(job, INIT, steps).polls[k])
  {
    hide Next, Exec, Inv, Answers;
    assert Exec(job, INIT, []) == INIT by { Unfold(job, INIT, []); }
    var m := |steps| - 1;
    var s, s' := Exec(job, INIT, steps[..m]), Exec(job, INIT, steps);
    LastStep(job, INIT, steps);
    if k < |s.polls| {
      n := PollsExplained(job, steps[..m], k);
      assert steps[..m][..n] == steps[..n];
      if s'.polls != s.polls {
        OnlyPollsAnswer(job, s, steps[m]);
        ReachableInv(job, steps[..m]);
        PollAnswer(job, s, steps[m].nonces, steps[m].choice, Ready(None));
      }
      assert s'.polls[k] == s.polls[k];
    } else {
      OnlyPollsAnswer(job, s, steps[m]);
      ReachableInv(job, steps[..m]);
      PollAnswer(job, s, steps[m].nonces, steps[m].choice, s'.polls[k]);
      n := m;
    }
  }

  /** Something ended the stream: no threads, no receivers, or a worker that has stopped. */
  predicate MayEnd(job: Job, s: State) {
    || job.threads == 0 || (s.workers != [] && s.channels == [])
    || exists i :: 0 <= i < |s.workers| && s.workers[i].pc.Stopped?
  }

  lemma EndStays(job: Job, s: State, step: Step)
    requires Inv(job, s) && (Ready(None) in s.polls ==> MayEnd(job, s))
    ensures var s' := Next(job, s, step); Ready(None) in s'.polls ==> MayEnd(job, s')
  {
    hide WorkerInv, ChannelInv, From, Fresh, WorkerStep;
    var s' := Next(job, s, step);
    if step.PollNext? && s'.polls != s.polls {
      PollAnswer(job, s, step.nonces, step.choice, Ready(None));
    }
    if MayEnd(job, s) {
      if i :| 0 <= i < |s.workers| && s.workers[i].pc.Stopped? {
        StoppedStep(job, s, step, i);
        assert s'.workers[i].pc.Stopped?;
      }
    }
  }

  lemma {:induction false} EndNeedsCause(job: Job, s: State, steps: seq<Step>)
    requires Inv(job, s) && (Ready(None) in s.polls ==> MayEnd(job, s))
    ensures var s' := Exec(job, s, steps); Ready(None) in s'.polls ==> MayEnd(job, s')
    decreases |steps|
  {
    hide Inv, Next, MayEnd;
    if steps != [] {
      StepKeepsInv(job, s, steps[0]);
      EndStays(job, s, steps[0]);
      EndNeedsCause(job, Next(job, s, steps[0]), steps[1..]);
    }
  }

  /** So a run with threads, in which none has stopped, nothing was killed and no header was yielded, never ends. */
  lemma NeverEndsEarly(job: Job, steps: seq<Step>)
    requires job.threads > 0 && NoKill(steps)
    requires var s := Exec(job, INIT, steps);
             && (forall i :: 0 <= i < |s.workers| ==> !s.workers[i].pc.Stopped?)
             && (forall k :: 0 <= k < |s.items| ==> s.items[k].header.None?)
    ensures Ready(None) !in Exec(job, INIT, steps).polls
  {
    hide Exec;
    EndNeedsCause(job, INIT, steps);
    GoneMeansHeader(job, steps);
  }

  // ---------------------------------------------------------------------------------------------
  // Whole runs: the end of the stream

  predicate AllNone(polls: seq<Poll>) {
    forall k :: 0 <= k < |polls| ==> polls[k] == Ready(None)
  }

  lemma StepAfterClear(job: Job, s: State, step: Step)
    requires s.workers != [] && s.channels == []
    ensures var s' := Next(job, s, step);
            && |s'.workers| == |s.workers| && s'.channels == [] && s'.items == s.items
            && (s'.polls == s.polls || s'.polls == s.polls + [Ready(None)])
  {
  }

  /** Once the receivers are gone nothing more is yielded: every later poll is the end of the stream. */
  lemma {:induction false} StreamEnds(job: Job, s: State, steps: seq<Step>)
    requires s.workers != [] && s.channels == []
    ensures var s' := Exec(job, s, steps);
            && s'.items == s.items && s.polls <= s'.polls && AllNone(s'.polls[|s.polls|..])
    decreases |steps|
  {
    hide Next;
    if steps != [] {
      StepAfterClear(job, s, steps[0]);
      var t := Next(job, s, steps[0]);
      StreamEnds(job, t, steps[1..]);
      var s' := Exec(job, s, steps);
      forall k | 0 <= k < |s'.polls| - |s.polls| ensures s'.polls[|s.polls|..][k] == Ready(None) {
        if |t.polls| <= |s.polls| + k {
          assert s'.polls[|s.polls|..][k] == s'.polls[|t.polls|..][|s.polls| + k - |t.polls|];
        } else {
          assert s'.polls[|s.polls| + k] == t.polls[|s.polls| + k];
        }
      }
    }
  }

  lemma {:induction false} ExecConcat(job: Job, s: State, a: seq<Step>, b: seq<Step>)
    ensures Exec(job, s, a + b) == Exec(job, Exec(job, s, a), b)
    decreases |a|
  {
    hide Next;
    if a == [] {
      assert a + b == b;
    } else {
      assert (a + b)[1..] == a[1..] + b;
      ExecConcat(job, Next(job, s, a[0]), a[1..], b);
    }
  }

  /** Outside share mode at most one header is yielded, as the last item, and every later poll is None. */
  lemma HeaderEndsStream(job: Job, steps: seq<Step>, k: nat, later: seq<Step>)
    requires !job.shareMode
    requires k < |Exec(job, INIT, steps).items| && Exec(job, INIT, steps).items[k].header.Some?
    ensures var s, s' := Exec(job, INIT, steps), Exec(job, INIT, steps + later);
            && k == |s.items| - 1 && s'.items == s.items
            && s.polls <= s'.polls && AllNone(s'.polls[|s.polls|..])
  {
    hide Exec, WorkerInv, ChannelInv, From;
    ReachableInv(job, steps);
    var s := Exec(job, INIT, steps);
    assert s.items[k].miner < |s.workers|;
    StreamEnds(job, s, later);
    ExecConcat(job, INIT, steps, later);
  }

  // ---------------------------------------------------------------------------------------------
  // Whole runs: stopping

  /** Increments until the nonce is a multiple of the reporting frequency, wrapping at 2^64. */
  function ToReport(nonce: u64): nat {
    if nonce % REPORTING_FREQUENCY == 0 then 0
    else
      var toMultiple, toWrap := REPORTING_FREQUENCY - nonce % REPORTING_FREQUENCY, U64 - nonce;
      if toMultiple <= toWrap then toMultiple else toWrap
  }

  lemma ToReportDecreases(nonce: u64)
    ensures ToReport(nonce) < REPORTING_FREQUENCY
    ensures nonce % REPORTING_FREQUENCY != 0 ==> ToReport((nonce + 1) % U64) == ToReport(nonce) - 1
  {
    var q, r := nonce / REPORTING_FREQUENCY, nonce % REPORTING_FREQUENCY;
    assert nonce == REPORTING_FREQUENCY * q + r;
    if r != 0 && nonce + 1 < U64 {
      if r + 1 == REPORTING_FREQUENCY {
        assert nonce + 1 == REPORTING_FREQUENCY * (q + 1);
      } else {
        assert (nonce + 1) % REPORTING_FREQUENCY == r + 1;
      }
    }
  }

  /** Difficulty evaluations a worker without a receiver may still make. */
  function EvalsLeft(w: Worker): nat {
    var nonce := w.hasher.header.nonce;
    match w.pc
    case Hash => ToReport(nonce) + 1
    case Found(_) => ToReport(nonce)
    case Status(_) => 0
    case Advance => ToReport((nonce + 1) % U64) + 1
    case Stopped => 0
  }

  /** Steps it may still take. */
  function StepsLeft(w: Worker): nat {
    match w.pc
    case Hash => 4 * EvalsLeft(w)
    case Found(_) => 4 * EvalsLeft(w) + 2
    case Status(_) => 1
    case Advance => 4 * EvalsLeft(w) + 1
    case Stopped => 0
  }

  lemma DisconnectedStep(job: Job, i: nat, w: Worker, now: u64)
    ensures var w' := WorkerStep(job, i, w, false, None, now).0;
            && w'.evals + EvalsLeft(w') <= w.evals + EvalsLeft(w)
            && (!w.pc.Stopped? ==> StepsLeft(w') < StepsLeft(w))
            && (w.pc.Stopped? ==> w' == w)
  {
    hide ToReport;
    ToReportDecreases(w.hasher.header.nonce);
    NoDistance(w.hasher.header.nonce);
  }

  lemma NoDistance(nonce: u64)
    ensures ToReport(nonce) == 0 <==> nonce % REPORTING_FREQUENCY == 0
  {
  }

  function Turns(steps: seq<Step>, i: nat): nat {
    if steps == [] then 0 else (if steps[0].Work? && steps[0].worker == i then 1 else 0) + Turns(steps[1..], i)
  }

  lemma StepWhenDropped(job: Job, s: State, step: Step, i: nat)
    requires i < |s.workers| && s.channels == []
    ensures var s' := Next(job, s, step);
            && i < |s'.workers| && s'.channels == []
            && (if step.Work? && step.worker == i then
                  s'.workers[i] == WorkerStep(job, i, s.workers[i], false, None, step.now).0
                else
                  s'.workers[i] == s.workers[i].(discarded := s'.workers[i].discarded))
  {
  }

  lemma {:induction false} DroppedWorkerCounts(job: Job, s: State, steps: seq<Step>, i: nat)
    requires i < |s.workers| && s.channels == []
    ensures var s' := Exec(job, s, steps);
            && i < |s'.workers|
            && s'.workers[i].evals + EvalsLeft(s'.workers[i]) <= s.workers[i].evals + EvalsLeft(s.workers[i])
            && (s'.workers[i].pc.Stopped? || StepsLeft(s'.workers[i]) + Turns(steps, i) <= StepsLeft(s.workers[i]))
    decreases |steps|
  {
    hide Next, WorkerStep, ToReport;
    if steps != [] {
      var step, t := steps[0], Next(job, s, steps[0]);
      StepWhenDropped(job, s, step, i);
      if step.Work? && step.worker == i {
        DisconnectedStep(job, i, s.workers[i], step.now);
      }
      DroppedWorkerCounts(job, t, steps[1..], i);
    }
  }

  lemma LeftBounds(w: Worker)
    ensures EvalsLeft(w) <= REPORTING_FREQUENCY && StepsLeft(w) <= 4 * REPORTING_FREQUENCY + 1
  {
  }

  /**
    From any state without receivers and under any schedule, a worker evaluates at most 3,000,000
    more difficulties, across the nonce wrap too, and has stopped once it was scheduled often enough.
  */
  lemma DroppedWorkerStops(job: Job, s: State, steps: seq<Step>, i: nat)
    requires i < |s.workers| && s.channels == []
    ensures var s' := Exec(job, s, steps);
            && i < |s'.workers|
            && s'.workers[i].evals <= s.workers[i].evals + REPORTING_FREQUENCY
            && (Turns(steps, i) > 4 * REPORTING_FREQUENCY + 1 ==> s'.workers[i].pc.Stopped?)
  {
    hide Exec, EvalsLeft, StepsLeft;
    DroppedWorkerCounts(job, s, steps, i);
    LeftBounds(s.workers[i]);
  }

  // ---------------------------------------------------------------------------------------------
  // Whole runs: what becomes of a found header

  datatype Fate = Waiting | Yielded | Dropped

  predicate HeaderWaits(s: State, j: nat) {
    j < |s.channels| && s.channels[j].Some? && s.channels[j].value.header.Some?
  }

  /** The receivers go: they are killed, or outside share mode another worker's header is yielded. */
  predicate Drops(job: Job, s: State, step: Step, i: nat) {
    step.KillThreads? || (step.PollNext? && step.choice != i && !job.shareMode && HeaderWaits(s, step.choice))
  }

  /** What becomes of a report waiting in slot i: the first poll that selects i, or the first drop, decides. */
  function FateOf(job: Job, s: State, i: nat, steps: seq<Step>): Fate
    decreases |steps|
  {
    if steps == [] then Waiting
    else if steps[0].PollNext? && steps[0].choice == i then Yielded
    else if Drops(job, s, steps[0], i) then Dropped
    else FateOf(job, Next(job, s, steps[0]), i, steps[1..])
  }

  lemma WaitingStep(job: Job, s: State, i: nat, r: Report, step: Step)
    requires Inv(job, s) && i < |s.workers| && Unread(s, i) == [r]
    ensures var s' := Next(job, s, step);
            && |s'.workers| == |s.workers|
            && (if step.PollNext? && step.choice == i then
                  s'.workers[i].delivered == s.workers[i].delivered + [r]
                else s'.workers[i].delivered == s.workers[i].delivered
                     && if Drops(job, s, step, i) then s'.workers[i].discarded == [r] && s'.channels == []
                        else Unread(s', i) == [r])
  {
    hide WorkerInv, From, AttemptsExplained, Accepted, WorkerStep;
    assert ChannelInv(s.workers[i], true, s.channels[i]);
    assert ChannelReady(s, i);
    if step.Work? && step.worker == i {
      WorkerStepKeepsChannel(job, i, s.workers[i], true, s.channels[i], step.now);
      SlotStays(job, i, s.workers[i], r, step.now);
    } else if step.Work? && step.worker < |s.workers| {
      assert step.worker < |s.channels|;
    }
  }

  lemma SlotStays(job: Job, i: nat, w: Worker, r: Report, now: u64)
    ensures WorkerStep(job, i, w, true, Some(r), now).1 == Some(r)
    ensures WorkerStep(job, i, w, true, Some(r), now).0.delivered == w.delivered
  {
  }

  lemma {:induction false} DeliveredGrows(job: Job, s: State, steps: seq<Step>, i: nat)
    requires i < |s.workers|
    ensures var s' := Exec(job, s, steps);
            && i < |s'.workers| && s.workers[i].delivered <= s'.workers[i].delivered
            && (s.channels == [] ==>
                  && s'.channels == [] && s'.workers[i].delivered == s.workers[i].delivered
                  && s'.workers[i].discarded == s.workers[i].discarded)
    decreases |steps|
  {
    hide Next;
    if steps != [] {
      StepGrows(job, s, steps[0], i);
      DeliveredGrows(job, Next(job, s, steps[0]), steps[1..], i);
    }
  }

  lemma StepGrows(job: Job, s: State, step: Step, i: nat)
    requires i < |s.workers|
    ensures var s' := Next(job, s, step);
            && i < |s'.workers| && s.workers[i].delivered <= s'.workers[i].delivered
            && (s.channels == [] ==>
                  && s'.channels == [] && s'.workers[i].delivered == s.workers[i].delivered
                  && s'.workers[i].discarded == s.workers[i].discarded)
  {
  }

  /** Whatever waits in a slot is yielded, waits on, or is dropped, as its fate says. */
  lemma {:induction false} WaitingFate(job: Job, s: State, i: nat, r: Report, steps: seq<Step>)
    requires Inv(job, s) && i < |s.workers| && Unread(s, i) == [r]
    ensures var s' := Exec(job, s, steps);
            && i < |s'.workers|
            && match FateOf(job, s, i, steps)
               case Waiting => Unread(s', i) == [r] && s'.workers[i].delivered == s.workers[i].delivered
               case Yielded => s.workers[i].delivered + [r] <= s'.workers[i].delivered
               case Dropped =>
                 && s'.workers[i].discarded == [r] && s'.workers[i].delivered == s.workers[i].delivered
                 && s'.channels == []
    decreases |steps|
  {
    hide Next, Inv, Unread;
    if steps != [] {
      var t := Next(job, s, steps[0]);
      WaitingStep(job, s, i, r, steps[0]);
      StepKeepsInv(job, s, steps[0]);
      if (steps[0].PollNext? && steps[0].choice == i) || Drops(job, s, steps[0], i) {
        DeliveredGrows(job, t, steps[1..], i);
      } else {
        WaitingFate(job, t, i, r, steps[1..]);
      }
    }
  }

  lemma FoundStep(job: Job, s: State, i: nat, now: u64)
    requires Inv(job, s) && i < |s.workers| && s.workers[i].pc.Found?
    ensures var s', w := Next(job, s, Work(i, now)), s.workers[i];
            var r := MakeReport(job, i, w.hasher, w.pc.d, true);
            var kept := s.channels != [] && SlotOf(s, i).None?;
            && Inv(job, s') && |s'.workers| == |s.workers| && s'.workers[i].delivered == w.delivered
            && (exists outcome ::
                  s'.workers[i].log == w.log + [Attempt(r, outcome, |w.delivered|)] && (outcome.Sent? <==> kept))
            && (kept ==> Unread(s', i) == [r])
            && (!job.shareMode ==> s'.workers[i].pc.Stopped?)
  {
    hide WorkerInv, ChannelInv, From, Accepted;
    StepKeepsInv(job, s, Work(i, now));
    var w := s.workers[i];
    var outcome := TrySendOutcome(s.channels != [], SlotOf(s, i));
    var r := MakeReport(job, i, w.hasher, w.pc.d, true);
    assert Next(job, s, Work(i, now)).workers[i].log == w.log + [Attempt(r, outcome, |w.delivered|)];
  }

  lemma {:induction false} StoppedLog(job: Job, s: State, steps: seq<Step>, i: nat)
    requires i < |s.workers| && s.workers[i].pc.Stopped?
    ensures i < |Exec(job, s, steps).workers| && Exec(job, s, steps).workers[i].log == s.workers[i].log
    decreases |steps|
  {
    if steps != [] {
      StoppedStep(job, s, steps[0], i);
      StoppedLog(job, Next(job, s, steps[0]), steps[1..], i);
    }
  }

  lemma StoppedStep(job: Job, s: State, step: Step, i: nat)
    requires i < |s.workers| && s.workers[i].pc.Stopped?
    ensures var s' := Next(job, s, step);
            i < |s'.workers| && s'.workers[i].pc.Stopped? && s'.workers[i].log == s.workers[i].log
  {
  }

  predicate NoHeader(reports: seq<Report>) {
    forall k :: 0 <= k < |reports| ==> reports[k].header.None?
  }

  lemma {:induction false} AcceptedNoHeader(log: seq<Attempt>)
    requires forall k :: 0 <= k < |log| ==> log[k].report.header.None?
    ensures NoHeader(Accepted(log))
  {
    if log != [] {
      AcceptedNoHeader(log[..|log| - 1]);
    }
  }

  /** Outside share mode a worker that has found a header has had nothing with a header accepted yet. */
  lemma FoundIsFirst(job: Job, s: State, i: nat)
    requires Inv(job, s) && i < |s.workers| && s.workers[i].pc.Found? && !job.shareMode
    ensures NoHeader(s.workers[i].delivered) && NoHeader(Accepted(s.workers[i].log))
  {
    hide Accepted, AttemptsExplained, From, Honest;
    var w := s.workers[i];
    assert WorkerInv(job, i, w) && ChannelInv(w, s.channels != [], SlotOf(s, i));
    AcceptedNoHeader(w.log);
    forall k | 0 <= k < |w.delivered| ensures w.delivered[k].header.None? {
      assert Accepted(w.log)[k] == w.delivered[k];
    }
  }

  lemma {:induction false} FromIn(items: seq<Report>, i: nat, r: Report)
    requires r in From(items, i)
    ensures r in items && r.miner == i
  {
    var last := |items| - 1;
    if r != items[last] || items[last].miner != i {
      FromIn(items[..last], i, r);
    }
  }

  /** The items of worker i are what it had delivered. */
  lemma ItemOf(job: Job, s: State, r: Report)
    requires Inv(job, s) && r.miner < |s.workers|
    ensures r in s.items <==> r in s.workers[r.miner].delivered
  {
    hide WorkerInv, ChannelInv;
    if r in s.items {
      InFrom(s.items, r);
    }
    if r in s.workers[r.miner].delivered {
      FromIn(s.items, r.miner, r);
    }
  }

  /** A report that was refused outside share mode is never yielded: its worker has stopped. */
  lemma RefusedNeverDelivered(job: Job, s: State, steps: seq<Step>, i: nat, r: Report)
    requires Inv(job, s) && i < |s.workers| && s.workers[i].pc.Stopped?
    requires NoHeader(Accepted(s.workers[i].log)) && r.header.Some?
    ensures var s' := Exec(job, s, steps); i < |s'.workers| && r !in s'.workers[i].delivered
  {
    hide Accepted, AttemptsExplained, From, Exec, WorkerInv;
    StoppedLog(job, s, steps, i);
    ExecKeepsInv(job, s, steps);
    var s' := Exec(job, s, steps);
    var w' := s'.workers[i];
    assert ChannelInv(w', s'.channels != [], SlotOf(s', i));
    forall k | 0 <= k < |w'.delivered| ensures w'.delivered[k] != r {
      assert Accepted(w'.log)[k] == w'.delivered[k];
    }
  }

  /**
    In every run, the header a worker finds: it is refused unless its slot is free and has a
    receiver, and from there its fate is to wait, to be yielded next, or to be dropped with the
    receivers. Outside share mode it is yielded if and only if it was kept and its fate is Yielded.
  */
  lemma FoundHeaderFate(job: Job, before: seq<Step>, i: nat, now: u64, after: seq<Step>)
    requires i < |Exec(job, INIT, before).workers| && Exec(job, INIT, before).workers[i].pc.Found?
    ensures var p := Exec(job, INIT, before);
            var w, found := p.workers[i], Next(job, p, Work(i, now));
            var s := Exec(job, found, after);
            var r := MakeReport(job, i, w.hasher, w.pc.d, true);
            var kept, fate := p.channels != [] && SlotOf(p, i).None?, FateOf(job, found, i, after);
            && s == Exec(job, INIT, before + ([Work(i, now)] + after)) && i < |s.workers|
            && r.header == Some(WireHeader(w.hasher.header, job.hash(w.hasher.header)))
            && (kept ==>
                  match fate
                  case Waiting => Unread(s, i) == [r] && s.workers[i].delivered == w.delivered
                  case Yielded => w.delivered + [r] <= s.workers[i].delivered
                  case Dropped =>
                    s.workers[i].discarded == [r] && s.workers[i].delivered == w.delivered && s.channels == [])
            && (!job.shareMode ==> (r in s.items <==> kept && fate == Yielded))
  {
    hide Exec, Next, Inv, FateOf, Accepted, Unread;
    var p := Exec(job, INIT, before);
    var w, found := p.workers[i], Next(job, p, Work(i, now));
    var r := MakeReport(job, i, w.hasher, w.pc.d, true);
    ReachableInv(job, before);
    FoundStep(job, p, i, now);
    var s := Exec(job, found, after);
    ExecConcat(job, INIT, before, [Work(i, now)] + after);
    Unfold(job, p, [Work(i, now)] + after);
    assert ([Work(i, now)] + after)[1..] == after;
    ExecKeepsInv(job, found, after);
    if p.channels != [] && SlotOf(p, i).None? {
      WaitingFate(job, found, i, r, after);
      if !job.shareMode {
        FoundIsFirst(job, p, i);
        assert r !in w.delivered;
        ItemOf(job, s, r);
        assert FateOf(job, found, i, after) == Yielded ==> s.workers[i].delivered[|w.delivered|] == r;
      }
    } else {
      DeliveredGrows(job, found, after, i);
      if !job.shareMode {
        FoundIsFirst(job, p, i);
        AcceptedSnoc(w.log, found.workers[i].log[|w.log|]);
        RefusedNeverDelivered(job, found, after, i, r);
        ItemOf(job, s, r);
      }
    }
  }

  predicate NoKill(steps: seq<Step>) {
    forall k :: 0 <= k < |steps| ==> !steps[k].KillThreads?
  }

  /** The receivers are gone only because a header was yielded, as the last item. */
  predicate ClearedByHeader(job: Job, s: State) {
    s.workers != [] && s.channels == [] ==>
      !job.shareMode && s.items != [] && s.items[|s.items| - 1].header.Some?
  }

  lemma StepKeepsCleared(job: Job, s: State, step: Step)
    requires Inv(job, s) && ClearedByHeader(job, s) && !step.KillThreads?
    ensures ClearedByHeader(job, Next(job, s, step))
  {
    hide WorkerInv, ChannelInv, From, WorkerStep, Fresh;
  }

  /** So without kills a header is dropped only when another was yielded in its place. */
  lemma {:induction false} NoKillNoLoss(job: Job, s: State, steps: seq<Step>)
    requires Inv(job, s) && ClearedByHeader(job, s) && NoKill(steps)
    ensures ClearedByHeader(job, Exec(job, s, steps))
    decreases |steps|
  {
    hide Inv, Next, ClearedByHeader;
    if steps != [] {
      StepKeepsInv(job, s, steps[0]);
      StepKeepsCleared(job, s, steps[0]);
      NoKillNoLoss(job, Next(job, s, steps[0]), steps[1..]);
    }
  }

  /** In every run without kills, receivers gone means that the last item is a header. */
  lemma GoneMeansHeader(job: Job, steps: seq<Step>)
    requires NoKill(steps)
    ensures ClearedByHeader(job, Exec(job, INIT, steps))
  {
    NoKillNoLoss(job, INIT, steps);
  }

  lemma WorkAlone(job: Job, w: Worker, slot: Slot, polls: seq<Poll>, w': Worker, slot': Slot)
    requires WorkerStep(job, 0, w, true, slot, 0) == (w', slot')
    ensures Next(job, State([w], [slot], [], polls), Work(0, 0)) == State([w'], [slot'], [], polls)
  {
  }

  /** One worker; nonce 0 misses the target and is a reporting nonce, nonce 1 meets the target. */
  function LossyJob(): Job {
    Job(WireHeader(Header(7, 0, 0, []), []), 5, 1, false,
        (h: Header) => if h.nonce == 1 then 10 else 0, (h: Header) => [], (h: Header) => true)
  }

  /** The worker reports nonce 0, nobody reads it, and the header of nonce 1 is refused. */
  lemma LossyWorker() returns (w: Worker)
    ensures w.pc.Stopped? && w.delivered == [] && |w.log| == 2
    ensures var s := Next(LossyJob(), INIT, PollNext([0], 0));
            var work := Work(0, 0);
            && Exec(LossyJob(), s, [work, work, work, work, work]) ==
               State([w], [Some(w.log[0].report)], [], [Pending])
    ensures w.log[0].report.header.None?
    ensures w.log[1].report.header.Some? && w.log[1].outcome.Full?
  {
    hide Exec;
    var job, work, polls := LossyJob(), Work(0, 0), [Pending];
    var h0, h1 := Hashing(job.template.header, 0), Hashing(job.template.header.(nonce := 1), 1);
    var w0 := Fresh(job, 0);
    var w1 := w0.(hasher := h0.(hashes := 1), evals := 1, hashed := [] + [h0.header], pc := Status(0));
    var status := MakeReport(job, 0, w1.hasher, 0, false);
    var w2 := w1.(pc := Advance, log := [] + [Attempt(status, Sent, 0)]);
    var w3 := w2.(pc := Hash, hasher := h1);
    var w4 := w3.(pc := Found(10), hasher := h1.(hashes := 2), evals := 2, hashed := w3.hashed + [h1.header]);
    var found := MakeReport(job, 0, w4.hasher, 10, true);
    w := w4.(pc := Stopped, log := w4.log + [Attempt(found, Full, 0)]);
    WorkAlone(job, w0, None, polls, w1, None);
    WorkAlone(job, w1, None, polls, w2, Some(status));
    WorkAlone(job, w2, Some(status), polls, w3, Some(status));
    WorkAlone(job, w3, Some(status), polls, w4, Some(status));
    WorkAlone(job, w4, Some(status), polls, w, Some(status));
    assert Next(job, INIT, PollNext([0], 0)) == State([w0], [None], [], polls);
    ExecFive(job, State([w0], [None], [], polls), work);
  }

  lemma ExecFive(job: Job, s: State, step: Step)
    ensures Exec(job, s, [step, step, step, step, step]) ==
            Next(job, Next(job, Next(job, Next(job, Next(job, s, step), step), step), step), step)
  {
    hide Next, Exec;
    var s1 := Next(job, s, step);
    var s2 := Next(job, s1, step);
    var s3 := Next(job, s2, step);
    var s4 := Next(job, s3, step);
    assert [step, step, step, step, step][1..] == [step, step, step, step];
    assert [step, step, step, step][1..] == [step, step, step];
    assert [step, step, step][1..] == [step, step];
    assert [step, step][1..] == [step];
    Unfold(job, s, [step, step, step, step, step]);
    Unfold(job, s1, [step, step, step, step]);
    Unfold(job, s2, [step, step, step]);
    Unfold(job, s3, [step, step]);
    Unfold(job, s4, [step]);
    Unfold(job, Next(job, s4, step), []);
  }

  /**
    So a block can be found and lost: after that run the stream yields the status report and then
    ends, its receivers still in place, and the header is gone.
  */
  lemma FoundHeaderLost() returns (steps: seq<Step>, w: Worker)
    ensures w.pc.Stopped? && |w.log| == 2
    ensures var s := Exec(LossyJob(), INIT, steps);
            s == State([w], [None], [w.log[0].report], [Pending, Ready(Some(w.log[0].report)), Ready(None)])
    ensures w.log[0].report.header.None? && w.log[1].report.header.Some? && w.log[1].outcome.Full?
  {
    hide Exec, WorkerStep;
    var job, work, poll := LossyJob(), Work(0, 0), PollNext([0], 0);
    var v := LossyWorker();
    w := v.(delivered := [v.log[0].report]);
    var r := v.log[0].report;
    steps := [poll] + ([work, work, work, work, work] + [poll, poll]);
    Unfold(job, INIT, steps);
    assert steps[1..] == [work, work, work, work, work] + [poll, poll];
    ExecConcat(job, Next(job, INIT, poll), [work, work, work, work, work], [poll, poll]);
    var s6 := State([v], [Some(r)], [], [Pending]);
    assert ChannelReady(s6, 0);
    var s7 := State([w], [None], [r], [Pending, Ready(Some(r))]);
    assert v.delivered + [r] == [r] && s6.items + [r] == [r];
    assert Next(job, s6, poll) == Deliver(s6, 0, r) == s7;
    assert ChannelReady(s7, 0);
    Unfold(job, s6, [poll, poll]);
    assert [poll, poll][1..] == [poll] && [poll][1..] == [];
    Unfold(job, s7, [poll]);
    Unfold(job, Next(job, s7, poll), []);
  }

  lemma Unfold(job: Job, s: State, steps: seq<Step>)
    ensures Exec(job, s, steps) == if steps == [] then s else Exec(job, Next(job, s, steps[0]), steps[1..])
  {
  }
}
