/**
  The code of applications/tari_miner/src/miner.rs as it is written: the loop body of a mining
  thread, working on its hasher in place, and the stream object with its thread and channel fields.
  Both are shown to do what the steps of `Miner` say.
*/
module MinerStream {
  import opened Wrappers
  import opened Hasher
  import opened Miner

  /** One turn of a worker's loop, from a hash to the next: the steps of `WorkerStep` in their order. */
  function Turn(job: Job, i: nat, w: Worker, connected: bool, slot: Slot, connected': bool, slot': Slot, now: u64)
    : Worker
  {
    var hashed := WorkerStep(job, i, w, connected, slot, now).0;
    var found := if hashed.pc.Found? then WorkerStep(job, i, hashed, connected, slot, now).0 else hashed;
    var reported := if found.pc.Status? then WorkerStep(job, i, found, connected', slot', now).0 else found;
    if reported.pc.Advance? then WorkerStep(job, i, reported, connected', slot', now).0 else reported
  }

  /**
    A turn hashes one header and makes exactly the attempts due for it; then it has gone on to the
    next nonce or stopped, and outside share mode a status that was received has set the clock.
  */
  lemma TurnTells(job: Job, i: nat, w: Worker, connected: bool, slot: Slot, connected': bool, slot': Slot, now: u64)
    requires Told(job, i, w) && w.pc.Hash?
    ensures var w' := Turn(job, i, w, connected, slot, connected', slot', now);
            && Told(job, i, w') && (w'.pc.Hash? || w'.pc.Stopped?)
            && w'.hashed == w.hashed + [w.hasher.header] && w'.evals == w.evals + 1
            && Reports(w'.log) == Reports(w.log) + DueAt(job, i, w.evals + 1, w.hasher.header)
            && (!job.shareMode && w'.pc.Hash? && w.hasher.header.nonce % 3_000_000 == 0 ==>
                  var before := w.hasher.header.timestamp;
                  w'.hasher.header.timestamp == if now > before then now else before)
  {
    hide Told, Due, Reports, DueAt;
    var hashed := WorkerStep(job, i, w, connected, slot, now).0;
    WorkerStepTells(job, i, w, connected, slot, now);
    var found := if hashed.pc.Found? then WorkerStep(job, i, hashed, connected, slot, now).0 else hashed;
    WorkerStepTells(job, i, hashed, connected, slot, now);
    var reported := if found.pc.Status? then WorkerStep(job, i, found, connected', slot', now).0 else found;
    WorkerStepTells(job, i, found, connected', slot', now);
    WorkerStepTells(job, i, reported, connected', slot', now);
    var w' := Turn(job, i, w, connected, slot, connected', slot', now);
    assert w'.hashed == w.hashed + [w.hasher.header];
    DueSnoc(job, i, w.hashed, w.hasher.header);
    NothingPending(job, i, w);
    NothingPending(job, i, w');
  }

  lemma NothingPending(job: Job, i: nat, w: Worker)
    requires Told(job, i, w) && (w.pc.Hash? || w.pc.Stopped?)
    ensures Reports(w.log) == Due(job, i, w.hashed) && |w.hashed| == w.evals
  {
  }

  /** The start of `mining_task`: None is the panic of a header that does not convert. */
  method StartWorker(job: Job, nonce: u64) returns (hasher: Option<BlockHeaderSha3>)
    ensures hasher.None? <==> Fresh(job, nonce).pc.Stopped?
    ensures hasher.Some? ==> fresh(hasher.value) && hasher.value.State() == Fresh(job, nonce).hasher
  {
    var converted := BlockHeaderSha3.New(job.template, job.converts);
    if converted.Err? {
      return None;
    }
    converted.value.RandomNonce(nonce);
    hasher := Some(converted.value);
  }

  /**
    The loop body of `mining_task`. The channel is given as it stands at the first `try_send` and at
    the second; the attempts made are returned.
  */
  method MiningTurn(job: Job, i: nat, hasher: BlockHeaderSha3,
                    connected: bool, slot: Slot, connected': bool, slot': Slot, now: u64)
    returns (attempts: seq<Attempt>, stopped: bool)
    modifies hasher
    ensures var w := Worker(0, old(hasher.State()), Hash, 0, [], [], [], []);
            var w' := Turn(job, i, w, connected, slot, connected', slot', now);
            hasher.State() == w'.hasher && attempts == w'.log && stopped == w'.pc.Stopped?
  {
    attempts := [];
    ghost var w := Worker(0, hasher.State(), Hash, 0, [], [], [], []);
    var difficulty := hasher.ComputeDifficulty(job.difficulty);
    ghost var hashed := WorkerStep(job, i, w, connected, slot, now).0;
    assert hashed.hasher == hasher.State() && hashed.log == [];
    ghost var found := hashed;
    if difficulty >= job.target {
      found := WorkerStep(job, i, hashed, connected, slot, now).0;
      var header := hasher.CreateHeader(job.hash);
      var report := Report(i, job.target, difficulty, hasher.hashes, Some(header),
                           hasher.header.height, hasher.header.nonce);
      attempts := attempts + [Attempt(report, TrySendOutcome(connected, slot), 0)];
      if !job.shareMode {
        return attempts, true;
      }
    }
    assert found.hasher == hasher.State() && found.log == attempts && found.pc == AfterFound(found.hasher, difficulty);
    ghost var reported := found;
    if hasher.header.nonce % REPORTING_FREQUENCY == 0 {
      reported := WorkerStep(job, i, found, connected', slot', now).0;
      var report := Report(i, job.target, difficulty, hasher.hashes, None,
                           hasher.header.height, hasher.header.nonce);
      var outcome := TrySendOutcome(connected', slot');
      attempts := attempts + [Attempt(report, outcome, 0)];
      if outcome.Disconnected? {
        return attempts, true;
      }
      if !job.shareMode {
        hasher.SetForwardTimestamp(now);
      }
    }
    assert reported.hasher == hasher.State() && reported.log == attempts && reported.pc.Advance?;
    hasher.IncNonce();
    stopped := false;
  }

  class Stream {
    const job: Job
    var threads: nat
    var channels: seq<Slot>

    constructor InitMining(job: Job)
      ensures this.job == job && threads == 0 && channels == []
    {
      this.job := job;
      threads := 0;
      channels := [];
    }

    /** The stream's own fields are those of the model's state. */
    ghost predicate Shows(s: State, senderGone: seq<bool>)
      reads this
    {
      && s.channels == channels && |s.workers| == threads
      && (channels != [] ==> |channels| == threads)
      && |senderGone| == |channels|
      && (forall i :: 0 <= i < |channels| ==> s.workers[i].pc.Stopped? == senderGone[i])
    }

    method KillThreads()
      modifies this
      ensures threads == old(threads)
      ensures forall s, gone :: old(Shows(s, gone)) ==> Shows(Next(job, s, Step.KillThreads), [])
    {
      channels := [];
    }

    /** `choice` is the ready channel the select picks, when there is one. */
    method PollNext(senderGone: seq<bool>, nonces: seq<u64>, choice: nat) returns (poll: Poll)
      requires |senderGone| == |channels| && |nonces| == job.threads
      requires channels != [] ==> |channels| == threads
      requires (exists i :: 0 <= i < |channels| && (channels[i].Some? || senderGone[i])) ==>
                 choice < |channels| && (channels[choice].Some? || senderGone[choice])
      modifies this
      ensures forall s :: old(Shows(s, senderGone)) ==>
                var s' := Next(job, s, Step.PollNext(nonces, choice));
                s'.polls == s.polls + [poll] && s'.channels == channels && |s'.workers| == threads
    {
      hide WorkerStep, Fresh;
      if threads == 0 && job.threads > 0 {
        threads := job.threads;
        channels := seq(job.threads, i => None);
        return Pending;
      } else if job.threads == 0 {
        return Ready(None);
      } else if channels == [] {
        return Ready(None);
      }
      var ready := false;
      for i := 0 to |channels|
        invariant ready <==> exists j :: 0 <= j < i && (channels[j].Some? || senderGone[j])
        invariant unchanged(this)
      {
        ready := ready || channels[i].Some? || senderGone[i];
      }
      if !ready {
        return Pending;
      }
      assert forall s :: Shows(s, senderGone) ==> ChannelReady(s, choice);
      if channels[choice].None? {
        return Ready(None);
      }
      var report := channels[choice].value;
      channels := channels[choice := None];
      if report.header.Some? && !job.shareMode {
        channels := [];
      }
      poll := Ready(Some(report));
    }
  }
}
