/**
  How solved blocks reach the Tari node, applications/tari_merge_mining_proxy/src/proxy.rs: templates
  are saved under their merge-mining hash when handed out, and a submitted Monero block is turned
  back into the Tari block saved under the hash it carries.

  Requests run concurrently and the cache is locked only for single operations, so the model is a
  step function over any number of handlers; a step that cannot be taken leaves the state alone.
*/
module SubmitBlock {
  import opened Bytes
  import opened Wrappers
  import opened TemplateRepository

  type MoneroBlock = seq<byte>

  datatype ProxyError =
    | WrongParam | InvalidMoneroBlock | MissingData | MergeMineError | ConversionError | DifficultyError | Panicked

  /** The proxy's settings and the Monero and RandomX functions it calls, taken as arbitrary. */
  datatype Config = Config(
    checkDifficulty: bool,
    deserialize: string -> Option<MoneroBlock>,
    extractHash: MoneroBlock -> Result<Option<Hash>, ProxyError>,
    powData: (MoneroBlock, seq<byte>) -> Option<seq<byte>>,
    converts: TariHeader -> bool,
    difficulty: TariHeader -> Option<nat>)

  // ---------------------------------------------------------------------------------------------
  // From a Monero block to the block to submit

  /** The block with proof-of-work data appended in its header, if it has a place for it. */
  function WithPow(block: TariBlock, pow: seq<byte>): Option<TariBlock> {
    if block.header.None? || block.header.value.powData.None? then None
    else
      var header := block.header.value;
      Some(block.(header := Some(header.(powData := Some(header.powData.value + pow)))))
  }

  /** What the handler decides for one parameter, given the cache at the moment it looks. */
  datatype Plan =
    | Fail(error: ProxyError)
    | NoTemplate
    | BelowTarget
    | Submission(hash: Hash, monero: MoneroBlock, data: BlockTemplateData, block: TariBlock)

  function MakePlan(c: Config, blocks: Blocks, param: string): Plan {
    match c.deserialize(param)
    case None => Fail(InvalidMoneroBlock)
    case Some(monero) =>
      match c.extractHash(monero)
      case Err(e) => Fail(e)
      case Ok(None) => Fail(MissingData)
      case Ok(Some(hash)) =>
        if hash !in blocks then NoTemplate
        else
          var data := blocks[hash].data;
          match c.powData(monero, data.moneroSeed)
          case None => Fail(MergeMineError)
          case Some(pow) =>
            match WithPow(data.tariBlock, pow)
            case None => Fail(Panicked)
            case Some(block) =>
              if !c.converts(block.header.value) then Fail(ConversionError)
              else if !c.checkDifficulty then Submission(hash, monero, data, block)
              else
                match c.difficulty(block.header.value)
                case None => Fail(DifficultyError)
                case Some(achieved) =>
                  if achieved >= data.tariDifficulty then Submission(hash, monero, data, block) else BelowTarget
  }

  /**
    The block is the template saved under the hash the Monero block carries, changed only by
    appending proof-of-work data to its header, and meets the template's difficulty if checked.
  */
  predicate FromTemplate(c: Config, hash: Hash, monero: MoneroBlock, data: BlockTemplateData, block: TariBlock) {
    && c.extractHash(monero) == Ok(Some(hash))
    && c.powData(monero, data.moneroSeed).Some?
    && data.tariBlock.header.Some? && data.tariBlock.header.value.powData.Some?
    && block.header.Some? && block.body == data.tariBlock.body
    && block.header.value.height == data.tariBlock.header.value.height
    && block.header.value.rest == data.tariBlock.header.value.rest
    && block.header.value.powData ==
       Some(data.tariBlock.header.value.powData.value + c.powData(monero, data.moneroSeed).value)
    && (c.checkDifficulty ==>
          var achieved := c.difficulty(block.header.value); achieved.Some? && achieved.value >= data.tariDifficulty)
  }

  lemma PlanIsFromTemplate(c: Config, blocks: Blocks, param: string)
    requires MakePlan(c, blocks, param).Submission?
    ensures var p := MakePlan(c, blocks, param);
            && c.deserialize(param) == Some(p.monero)
            && p.hash in blocks && p.data == blocks[p.hash].data
            && FromTemplate(c, p.hash, p.monero, p.data, p.block)
  {
  }

  /** Exactly which block is submitted, with or without the difficulty being checked. */
  lemma PlanSubmits(c: Config, blocks: Blocks, param: string,
                    h: Hash, m: MoneroBlock, d: BlockTemplateData, b: TariBlock)
    ensures MakePlan(c, blocks, param) == Submission(h, m, d, b) <==>
            && c.deserialize(param) == Some(m) && h in blocks && d == blocks[h].data
            && FromTemplate(c, h, m, d, b) && c.converts(b.header.value)
  {
    if c.deserialize(param) == Some(m) && h in blocks && d == blocks[h].data && FromTemplate(c, h, m, d, b) {
      var header := d.tariBlock.header.value;
      assert b.header.value == header.(powData := Some(header.powData.value + c.powData(m, d.moneroSeed).value));
      assert b == d.tariBlock.(header := b.header);
    }
  }

  /** What is decided without a template, when the block cannot be read, carries no hash or an unknown one. */
  lemma PlanBeforeLookup(c: Config, blocks: Blocks, param: string, m: MoneroBlock, h: Hash)
    ensures c.deserialize(param).None? ==> MakePlan(c, blocks, param) == Fail(InvalidMoneroBlock)
    ensures c.deserialize(param) == Some(m) ==>
              && (c.extractHash(m).Err? ==> MakePlan(c, blocks, param) == Fail(c.extractHash(m).error))
              && (c.extractHash(m) == Ok(None) ==> MakePlan(c, blocks, param) == Fail(MissingData))
              && (c.extractHash(m) == Ok(Some(h)) ==> (MakePlan(c, blocks, param) == NoTemplate <==> h !in blocks))
  {
  }

  /** What is decided with one: the errors, and when the block is held back for its difficulty. */
  lemma PlanAfterLookup(c: Config, blocks: Blocks, param: string, m: MoneroBlock, h: Hash)
    requires c.deserialize(param) == Some(m) && c.extractHash(m) == Ok(Some(h)) && h in blocks
    ensures var plan, d := MakePlan(c, blocks, param), blocks[h].data;
            var pow := c.powData(m, d.moneroSeed);
            && (plan == Fail(MergeMineError) <==> pow.None?)
            && (plan == Fail(Panicked) <==>
                  pow.Some? && (d.tariBlock.header.None? || d.tariBlock.header.value.powData.None?))
            && (pow.Some? && d.tariBlock.header.Some? && d.tariBlock.header.value.powData.Some? ==>
                  var saved := d.tariBlock.header.value;
                  var header := TariHeader(saved.height, Some(saved.powData.value + pow.value), saved.rest);
                  var achieved := c.difficulty(header);
                  && (plan == Fail(ConversionError) <==> !c.converts(header))
                  && (plan == Fail(DifficultyError) <==> c.converts(header) && c.checkDifficulty && achieved.None?)
                  && (plan == BelowTarget <==>
                        c.converts(header) && c.checkDifficulty && achieved.Some? && achieved.value < d.tariDifficulty)
                  && (plan.Submission? <==>
                        c.converts(header)
                        && (c.checkDifficulty ==> achieved.Some? && achieved.value >= d.tariDifficulty)))
  {
  }

  // ---------------------------------------------------------------------------------------------
  // Handlers

  /** Where a handler stands: about to submit, to remove the accepted hash, or to evict. */
  datatype Task =
    | Holding(hash: Hash, monero: MoneroBlock, data: BlockTemplateData, block: TariBlock)
    | Removing(hash: Hash)
    | Evicting

  datatype Event =
    | Saved(hash: Hash, data: BlockTemplateData)
    | Sent(hash: Hash, monero: MoneroBlock, data: BlockTemplateData, block: TariBlock, accepted: bool)

  datatype State = State(blocks: Blocks, tasks: map<nat, Task>, trace: seq<Event>)

  datatype Step =
    | SaveTemplate(hash: Hash, data: BlockTemplateData, now: Time)
    | Fetch(task: nat, param: string)
    | Submit(task: nat, accepted: bool)
    | RemoveHash(task: nat)
    | Evict(task: nat, now: Time)

  function Next(c: Config, s: State, step: Step): State {
    match step
    case SaveTemplate(hash, data, now) =>
      s.(blocks := Apply(s.blocks, Operation.Save(hash, data, now)), trace := s.trace + [Saved(hash, data)])
    case Fetch(t, param) =>
      if t in s.tasks then s else
      (match MakePlan(c, s.blocks, param)
       case Submission(hash, monero, data, block) => s.(tasks := s.tasks[t := Holding(hash, monero, data, block)])
       case BelowTarget => s.(tasks := s.tasks[t := Evicting])
       case _ => s)
    case Submit(t, accepted) =>
      if t !in s.tasks || !s.tasks[t].Holding? then s
      else
        var held := s.tasks[t];
        s.(tasks := s.tasks[t := if accepted then Removing(held.hash) else Evicting],
           trace := s.trace + [Sent(held.hash, held.monero, held.data, held.block, accepted)])
    case RemoveHash(t) =>
      if t !in s.tasks || !s.tasks[t].Removing? then s
      else s.(blocks := Apply(s.blocks, Operation.Remove(s.tasks[t].hash)), tasks := s.tasks[t := Evicting])
    case Evict(t, now) =>
      if t !in s.tasks || !s.tasks[t].Evicting? then s
      else s.(blocks := Apply(s.blocks, Operation.RemoveOutdated(now - RETENTION)), tasks := s.tasks - {t})
  }

  function Exec(c: Config, s: State, steps: seq<Step>): State
    decreases |steps|
  {
    if steps == [] then s else Exec(c, Next(c, s, steps[0]), steps[1..])
  }

  const INIT := State(map[], map[], [])

  // ---------------------------------------------------------------------------------------------
  // Every interleaving: what is sent comes from a saved template

  predicate SentFromSaved(c: Config, trace: seq<Event>, k: nat)
    requires k < |trace|
  {
    trace[k].Sent? ==>
      && Saved(trace[k].hash, trace[k].data) in trace[..k]
      && FromTemplate(c, trace[k].hash, trace[k].monero, trace[k].data, trace[k].block)
  }

  predicate Inv(c: Config, s: State) {
    && (forall h :: h in s.blocks ==> Saved(h, s.blocks[h].data) in s.trace)
    && (forall t :: t in s.tasks && s.tasks[t].Holding? ==>
          && Saved(s.tasks[t].hash, s.tasks[t].data) in s.trace
          && FromTemplate(c, s.tasks[t].hash, s.tasks[t].monero, s.tasks[t].data, s.tasks[t].block))
    && (forall k :: 0 <= k < |s.trace| ==> SentFromSaved(c, s.trace, k))
  }

  lemma TraceGrows(c: Config, trace: seq<Event>, e: Event)
    requires forall k :: 0 <= k < |trace| ==> SentFromSaved(c, trace, k)
    requires e.Sent? ==> Saved(e.hash, e.data) in trace && FromTemplate(c, e.hash, e.monero, e.data, e.block)
    ensures forall k :: 0 <= k < |trace| + 1 ==> SentFromSaved(c, trace + [e], k)
  {
    hide FromTemplate;
    var longer := trace + [e];
    forall k | 0 <= k < |longer| ensures SentFromSaved(c, longer, k) {
      if k < |trace| {
        assert longer[..k] == trace[..k] && SentFromSaved(c, trace, k);
      } else {
        assert longer[..k] == trace;
      }
    }
  }

  lemma StepKeepsInv(c: Config, s: State, step: Step)
    requires Inv(c, s)
    ensures Inv(c, Next(c, s, step))
  {
    hide FromTemplate, MakePlan, SentFromSaved;
    match step
    case SaveTemplate(hash, data, now) =>
      TraceGrows(c, s.trace, Saved(hash, data));
    case Fetch(t, param) =>
      if MakePlan(c, s.blocks, param).Submission? {
        PlanIsFromTemplate(c, s.blocks, param);
      }
    case Submit(t, accepted) =>
      if t in s.tasks && s.tasks[t].Holding? {
        var held := s.tasks[t];
        TraceGrows(c, s.trace, Sent(held.hash, held.monero, held.data, held.block, accepted));
      }
    case RemoveHash(t) =>
    case Evict(t, now) =>
  }

  lemma {:induction false} ExecKeepsInv(c: Config, s: State, steps: seq<Step>)
    requires Inv(c, s)
    ensures Inv(c, Exec(c, s, steps))
    decreases |steps|
  {
    hide Inv, Next;
    if steps != [] {
      StepKeepsInv(c, s, steps[0]);
      ExecKeepsInv(c, Next(c, s, steps[0]), steps[1..]);
    }
  }

  /** In every run, each block sent to the node is a saved template with its own proof of work. */
  lemma EverySubmissionFromTemplate(c: Config, steps: seq<Step>, k: nat)
    requires k < |Exec(c, INIT, steps).trace|
    ensures SentFromSaved(c, Exec(c, INIT, steps).trace, k)
  {
    hide SentFromSaved, Exec;
    ExecKeepsInv(c, INIT, steps);
  }

  // ---------------------------------------------------------------------------------------------
  // When an accepted hash is sent again

  /** The template last saved under h, unless its block was accepted since. */
  function Open(trace: seq<Event>, h: Hash): Option<BlockTemplateData> {
    if trace == [] then None
    else
      var last := trace[|trace| - 1];
      if last.hash != h || (last.Sent? && !last.accepted) then Open(trace[..|trace| - 1], h)
      else if last.Saved? then Some(last.data)
      else None
  }

  predicate SentWhileOpen(trace: seq<Event>, k: nat)
    requires k < |trace|
  {
    trace[k].Sent? ==> Open(trace[..k], trace[k].hash).Some?
  }

  predicate AllSentWhileOpen(trace: seq<Event>) {
    forall k :: 0 <= k < |trace| ==> SentWhileOpen(trace, k)
  }

  predicate SavedBetween(trace: seq<Event>, h: Hash, k: nat, m: nat)
    requires m <= |trace|
  {
    exists j :: k < j < m && trace[j].Saved? && trace[j].hash == h
  }

  predicate Resent(first: Event, second: Event) {
    first.Sent? && first.accepted && second.Sent? && second.hash == first.hash
  }

  /** A trace in which an accepted hash is sent again only after it was saved again. */
  predicate SentOncePerSave(trace: seq<Event>) {
    forall k, m | 0 <= k < m < |trace| && Resent(trace[k], trace[m]) :: SavedBetween(trace, trace[k].hash, k, m)
  }

  lemma {:induction false} ClosedUntilSaved(trace: seq<Event>, k: nat, m: nat)
    requires k < m <= |trace| && trace[k].Sent? && trace[k].accepted
    requires Open(trace[..m], trace[k].hash).Some?
    ensures SavedBetween(trace, trace[k].hash, k, m)
  {
    var last := trace[m - 1];
    assert trace[..m][..m - 1] == trace[..m - 1];
    if m - 1 == k {
      assert false;
    } else if last.hash != trace[k].hash || (last.Sent? && !last.accepted) {
      ClosedUntilSaved(trace, k, m - 1);
    }
  }

  /** A hash saved and yet closed was accepted, and not saved since. */
  lemma {:induction false} ClosedByAcceptance(trace: seq<Event>, d: BlockTemplateData, h: Hash, m: nat) returns (k: nat)
    requires m <= |trace| && Saved(h, d) in trace[..m] && Open(trace[..m], h).None?
    ensures k < m && trace[k].Sent? && trace[k].accepted && trace[k].hash == h && !SavedBetween(trace, h, k, m)
  {
    var last := trace[m - 1];
    assert trace[..m][..m - 1] == trace[..m - 1] && trace[..m][m - 1] == last;
    if last.hash != h || (last.Sent? && !last.accepted) {
      assert Saved(h, d) in trace[..m - 1];
      k := ClosedByAcceptance(trace, d, h, m - 1);
    } else {
      k := m - 1;
    }
  }

  /** On every run, the two readings agree: once per save, and only while the template is open. */
  lemma OnceMeansOpen(c: Config, trace: seq<Event>)
    requires forall k :: 0 <= k < |trace| ==> SentFromSaved(c, trace, k)
    ensures SentOncePerSave(trace) <==> AllSentWhileOpen(trace)
  {
    hide Open, FromTemplate;
    if AllSentWhileOpen(trace) {
      OpenMeansOnce(trace);
    } else {
      var m :| 0 <= m < |trace| && !SentWhileOpen(trace, m);
      assert SentFromSaved(c, trace, m);
      var k := ClosedByAcceptance(trace, trace[m].data, trace[m].hash, m);
    }
  }

  lemma OpenMeansOnce(trace: seq<Event>)
    requires AllSentWhileOpen(trace)
    ensures SentOncePerSave(trace)
  {
    hide Open;
    forall k, m | 0 <= k < m < |trace| && Resent(trace[k], trace[m])
      ensures SavedBetween(trace, trace[k].hash, k, m)
    {
      assert SentWhileOpen(trace, m);
      ClosedUntilSaved(trace, k, m);
    }
  }

  /** Handler t may still send under h, or has had it accepted while no new template was saved. */
  predicate Claims(s: State, t: nat, h: Hash) {
    t in s.tasks && !s.tasks[t].Evicting? && s.tasks[t].hash == h
    && (s.tasks[t].Removing? ==> Open(s.trace, h).None?)
  }

  /** What a lookup by handler t would take up, if anything. */
  function Takes(c: Config, s: State, step: Step): Option<Hash> {
    if step.Fetch? && step.task !in s.tasks && MakePlan(c, s.blocks, step.param).Submission? then
      Some(MakePlan(c, s.blocks, step.param).hash)
    else None
  }

  /** A step that takes up no hash another handler claims. */
  ghost predicate Guarded(c: Config, s: State, step: Step) {
    Takes(c, s, step).Some? ==> forall u :: !Claims(s, u, Takes(c, s, step).value)
  }

  ghost predicate GuardedRun(c: Config, s: State, steps: seq<Step>)
    decreases |steps|
  {
    steps == [] || (Guarded(c, s, steps[0]) && GuardedRun(c, Next(c, s, steps[0]), steps[1..]))
  }

  /** A closed hash is in the cache only while the handler that had it accepted is about to remove it. */
  ghost predicate ClosedInv(s: State) {
    forall h :: h in s.blocks && Open(s.trace, h).None? ==>
      exists t :: t in s.tasks && s.tasks[t] == Removing(h)
  }

  /** Holders have a hash each, which is open, and nothing was sent that was not. */
  ghost predicate OpenInv(s: State) {
    && ClosedInv(s)
    && (forall t :: t in s.tasks && s.tasks[t].Holding? ==> Open(s.trace, s.tasks[t].hash).Some?)
    && (forall t, u :: t in s.tasks && u in s.tasks && t != u && s.tasks[t].Holding? && s.tasks[u].Holding? ==>
          s.tasks[t].hash != s.tasks[u].hash)
    && AllSentWhileOpen(s.trace)
  }

  lemma OpenSnoc(trace: seq<Event>, e: Event, h: Hash)
    ensures Open(trace + [e], h) ==
            if e.hash != h || (e.Sent? && !e.accepted) then Open(trace, h)
            else if e.Saved? then Some(e.data)
            else None
  {
  }

  lemma OpenTraceGrows(trace: seq<Event>, e: Event)
    requires AllSentWhileOpen(trace) && (e.Sent? ==> Open(trace, e.hash).Some?)
    ensures AllSentWhileOpen(trace + [e])
  {
    hide Open;
    var longer := trace + [e];
    forall k | 0 <= k < |longer| ensures SentWhileOpen(longer, k) {
      if k < |trace| {
        assert longer[..k] == trace[..k] && SentWhileOpen(trace, k);
      } else {
        assert longer[..k] == trace;
      }
    }
  }

  lemma StepOpens(c: Config, s: State, step: Step, h: Hash)
    ensures var s' := Next(c, s, step);
            Open(s'.trace, h) ==
            if step.SaveTemplate? && step.hash == h then Some(step.data)
            else if step.Submit? && step.accepted && step.task in s.tasks
                    && s.tasks[step.task].Holding? && s.tasks[step.task].hash == h then None
            else Open(s.trace, h)
  {
    hide Open, MakePlan;
    if step.SaveTemplate? {
      OpenSnoc(s.trace, Saved(step.hash, step.data), h);
    } else if step.Submit? && step.task in s.tasks && s.tasks[step.task].Holding? {
      var held := s.tasks[step.task];
      OpenSnoc(s.trace, Sent(held.hash, held.monero, held.data, held.block, step.accepted), h);
    }
  }

  lemma StepKeepsClosed(c: Config, s: State, step: Step)
    requires ClosedInv(s)
    ensures ClosedInv(Next(c, s, step))
  {
    hide Open, MakePlan;
    var s' := Next(c, s, step);
    forall h | h in s'.blocks && Open(s'.trace, h).None?
      ensures exists t :: t in s'.tasks && s'.tasks[t] == Removing(h)
    {
      StepOpens(c, s, step, h);
      if Open(s.trace, h).None? {
        var t :| t in s.tasks && s.tasks[t] == Removing(h);
        assert t in s'.tasks && s'.tasks[t] == Removing(h);
      } else {
        assert s'.tasks[step.task] == Removing(h);
      }
    }
  }

  lemma StepKeepsOpen(c: Config, s: State, step: Step)
    requires OpenInv(s) && Guarded(c, s, step)
    ensures OpenInv(Next(c, s, step))
  {
    hide Open, MakePlan, SentWhileOpen, ClosedInv;
    StepKeepsClosed(c, s, step);
    forall h { StepOpens(c, s, step, h); }
    match step
    case SaveTemplate(hash, data, now) =>
      OpenTraceGrows(s.trace, Saved(hash, data));
    case Fetch(t, param) =>
      if Takes(c, s, step).Some? {
        TakesOpen(c, s, step);
        var h := Takes(c, s, step).value;
        forall u | u in s.tasks && s.tasks[u].Holding? ensures s.tasks[u].hash != h {
          assert !Claims(s, u, h);
        }
      }
    case Submit(t, accepted) =>
      if t in s.tasks && s.tasks[t].Holding? {
        var held := s.tasks[t];
        OpenTraceGrows(s.trace, Sent(held.hash, held.monero, held.data, held.block, accepted));
      }
    case RemoveHash(t) =>
    case Evict(t, now) =>
  }

  /** A hash in the cache that nobody claims is open. */
  lemma TakesOpen(c: Config, s: State, step: Step)
    requires ClosedInv(s) && Guarded(c, s, step) && Takes(c, s, step).Some?
    ensures Open(s.trace, Takes(c, s, step).value).Some?
  {
    hide Open, MakePlan;
    var h := Takes(c, s, step).value;
    PlanIsFromTemplate(c, s.blocks, step.param);
    forall t | t in s.tasks && s.tasks[t] == Removing(h) ensures Open(s.trace, h).Some? {
      assert !Claims(s, t, h);
    }
  }

  lemma {:induction false} GuardedKeepsOpen(c: Config, s: State, steps: seq<Step>)
    requires OpenInv(s) && GuardedRun(c, s, steps)
    ensures OpenInv(Exec(c, s, steps))
    decreases |steps|
  {
    hide OpenInv, Guarded, Next;
    if steps != [] {
      StepKeepsOpen(c, s, steps[0]);
      GuardedKeepsOpen(c, Next(c, s, steps[0]), steps[1..]);
    }
  }

  // ---------------------------------------------------------------------------------------------
  // Exactly the runs whose handlers can be left to finish

  /** The handlers go on and templates are saved, but no further solution is taken up. */
  predicate NoFetch(steps: seq<Step>) {
    forall k :: 0 <= k < |steps| ==> !steps[k].Fetch?
  }

  lemma {:induction false} NoFetchIsGuarded(c: Config, s: State, steps: seq<Step>)
    requires NoFetch(steps)
    ensures GuardedRun(c, s, steps)
    decreases |steps|
  {
    hide Next;
    if steps != [] {
      NoFetchIsGuarded(c, Next(c, s, steps[0]), steps[1..]);
    }
  }

  lemma {:induction false} GuardedConcat(c: Config, s: State, a: seq<Step>, b: seq<Step>)
    ensures Exec(c, s, a + b) == Exec(c, Exec(c, s, a), b)
    ensures GuardedRun(c, s, a + b) <==> GuardedRun(c, s, a) && GuardedRun(c, Exec(c, s, a), b)
    decreases |a|
  {
    hide Next, Guarded;
    if a == [] {
      assert a + b == b;
    } else {
      assert (a + b)[1..] == a[1..] + b;
      GuardedConcat(c, Next(c, s, a[0]), a[1..], b);
    }
  }

  /** From event n on, h is sent although its template was accepted and not saved again. */
  predicate Resends(trace: seq<Event>, h: Hash, n: nat) {
    exists k :: n <= k < |trace| && trace[k].hash == h && !SentWhileOpen(trace, k)
  }

  /** An unguarded lookup can be followed, without any other, by a send of a hash that is not open. */
  lemma UnguardedResends(c: Config, s: State, step: Step) returns (later: seq<Step>)
    requires !Guarded(c, s, step)
    ensures NoFetch(later) && Takes(c, s, step).Some?
    ensures Resends(Exec(c, Next(c, s, step), later).trace, Takes(c, s, step).value, |s.trace|)
  {
    hide Open, MakePlan, Exec;
    var t, h := step.task, Takes(c, s, step).value;
    var u :| Claims(s, u, h);
    var s1 := Next(c, s, step);
    var s2 := Next(c, s1, Submit(t, true));
    StepOpens(c, s1, Submit(t, true), h);
    if s.tasks[u].Removing? {
      later := [Submit(t, true)];
      Unfold(c, s1, Submit(t, true), []);
      assert later == [Submit(t, true)] + [];
      Unfold(c, s2, Submit(t, true), []);
      SentClosed(c, s1, t);
    } else {
      var s3 := Next(c, s2, Submit(u, true));
      later := [Submit(t, true), Submit(u, true)];
      assert later == [Submit(t, true)] + [Submit(u, true)] && [Submit(u, true)] == [Submit(u, true)] + [];
      Unfold(c, s1, Submit(t, true), [Submit(u, true)]);
      Unfold(c, s2, Submit(u, true), []);
      Unfold(c, s3, Submit(u, true), []);
      SentClosed(c, s2, u);
    }
  }

  lemma SentClosed(c: Config, s: State, t: nat)
    requires t in s.tasks && s.tasks[t].Holding? && Open(s.trace, s.tasks[t].hash).None?
    ensures Resends(Next(c, s, Submit(t, true)).trace, s.tasks[t].hash, |s.trace|)
  {
    hide Open;
    var s' := Next(c, s, Submit(t, true));
    assert s'.trace[..|s.trace|] == s.trace;
    assert !SentWhileOpen(s'.trace, |s.trace|);
  }

  /** At most one handler holds h, and only while h is open. */
  ghost predicate HeldOpen(s: State, h: Hash) {
    && (forall t :: Holds(s, t, h) ==> Open(s.trace, h).Some?)
    && (forall t, u :: Holds(s, t, h) && Holds(s, u, h) ==> t == u)
  }

  predicate Holds(s: State, t: nat, h: Hash) {
    t in s.tasks && s.tasks[t].Holding? && s.tasks[t].hash == h
  }

  lemma StepKeepsHeldOpen(c: Config, s: State, step: Step, h: Hash, n: nat)
    requires HeldOpen(s, h) && !step.Fetch? && n <= |s.trace| && !Resends(s.trace, h, n)
    ensures var s' := Next(c, s, step); HeldOpen(s', h) && n <= |s'.trace| && !Resends(s'.trace, h, n)
  {
    hide Open;
    var s' := Next(c, s, step);
    StepOpens(c, s, step, h);
    forall t | Holds(s', t, h) ensures Holds(s, t, h) {
    }
    if step.Submit? && Holds(s, step.task, h) {
      assert Open(s.trace, h).Some?;
      assert forall t :: !Holds(s', t, h);
    }
    forall k | n <= k < |s'.trace| && s'.trace[k].hash == h ensures SentWhileOpen(s'.trace, k) {
      if k < |s.trace| {
        assert s'.trace[..k] == s.trace[..k] && SentWhileOpen(s.trace, k);
      } else {
        assert s'.trace[..k] == s.trace;
      }
    }
  }

  lemma {:induction false} HeldOpenNeverResends(c: Config, s: State, steps: seq<Step>, h: Hash, n: nat)
    requires HeldOpen(s, h) && NoFetch(steps) && n <= |s.trace| && !Resends(s.trace, h, n)
    ensures !Resends(Exec(c, s, steps).trace, h, n)
    decreases |steps|
  {
    hide HeldOpen, Next, Resends;
    if steps != [] {
      StepKeepsHeldOpen(c, s, steps[0], h, n);
      HeldOpenNeverResends(c, Next(c, s, steps[0]), steps[1..], h, n);
    }
  }

  lemma {:induction false} ReachesClosedInv(c: Config, s: State, steps: seq<Step>)
    requires ClosedInv(s)
    ensures ClosedInv(Exec(c, s, steps))
    decreases |steps|
  {
    hide ClosedInv, Next;
    if steps != [] {
      StepKeepsClosed(c, s, steps[0]);
      ReachesClosedInv(c, Next(c, s, steps[0]), steps[1..]);
    }
  }

  /**
    From every reachable state: a lookup that takes up h can lead, without another lookup, to h being
    sent again unsaved if and only if another handler holds h, or is about to remove it and h was not
    saved since it was accepted.
  */
  lemma LookupGuard(c: Config, steps: seq<Step>, step: Step)
    requires Takes(c, Exec(c, INIT, steps), step).Some?
    ensures var s := Exec(c, INIT, steps);
            var h := Takes(c, s, step).value;
            (exists u :: Claims(s, u, h)) <==>
            (exists later :: NoFetch(later) && Resends(Exec(c, Next(c, s, step), later).trace, h, |s.trace|))
  {
    hide Exec, Open, MakePlan, Resends;
    var s := Exec(c, INIT, steps);
    var s', h := Next(c, s, step), Takes(c, s, step).value;
    ReachesClosedInv(c, INIT, steps);
    if Guarded(c, s, step) {
      TakesOpen(c, s, step);
      forall t | Holds(s', t, h) ensures t == step.task {
        assert !Claims(s, t, h);
      }
      NothingResent(s.trace, h);
      forall later | NoFetch(later) ensures !Resends(Exec(c, s', later).trace, h, |s.trace|) {
        HeldOpenNeverResends(c, s', later, h, |s.trace|);
      }
    } else {
      var later := UnguardedResends(c, s, step);
    }
  }

  lemma NotAllOpen(trace: seq<Event>, h: Hash, n: nat)
    requires Resends(trace, h, n)
    ensures !AllSentWhileOpen(trace)
  {
  }

  lemma NothingResent(trace: seq<Event>, h: Hash)
    ensures !Resends(trace, h, |trace|)
  {
  }

  lemma {:induction false} FirstUnguarded(c: Config, s: State, steps: seq<Step>) returns (n: nat)
    requires !GuardedRun(c, s, steps)
    ensures n < |steps| && !Guarded(c, Exec(c, s, steps[..n]), steps[n])
    decreases |steps|
  {
    hide Next, Guarded;
    if !Guarded(c, s, steps[0]) {
      n := 0;
    } else {
      var m := FirstUnguarded(c, Next(c, s, steps[0]), steps[1..]);
      n := m + 1;
      assert steps[..n][1..] == steps[1..][..m];
    }
  }

  /** However the handlers at work after n steps go on, nothing accepted is sent again unsaved. */
  ghost predicate Settles(c: Config, steps: seq<Step>, n: nat)
    requires n <= |steps|
  {
    forall later :: NoFetch(later) ==> SentOncePerSave(Exec(c, INIT, steps[..n] + later).trace)
  }

  /**
    A run takes up no hash another handler claims if and only if, from each of its states, the
    handlers at work can finish in any order without an accepted hash being sent again unsaved.
  */
  lemma NoResubmission(c: Config, steps: seq<Step>)
    ensures GuardedRun(c, INIT, steps) <==> forall n :: 0 <= n <= |steps| ==> Settles(c, steps, n)
    ensures GuardedRun(c, INIT, steps) ==> SentOncePerSave(Exec(c, INIT, steps).trace)
  {
    hide Exec, Next, GuardedRun, Guarded, SentOncePerSave, AllSentWhileOpen, Inv;
    if GuardedRun(c, INIT, steps) {
      forall n, later | 0 <= n <= |steps| && NoFetch(later)
        ensures SentOncePerSave(Exec(c, INIT, steps[..n] + later).trace)
      {
        GuardedOnce(c, steps, n, later);
      }
      assert steps[..|steps|] + [] == steps;
      assert NoFetch([]);
    } else {
      var n := FirstUnguarded(c, INIT, steps);
      var s := Exec(c, INIT, steps[..n]);
      var later := UnguardedResends(c, s, steps[n]);
      assert steps[..n + 1] + later == steps[..n] + ([steps[n]] + later);
      GuardedConcat(c, INIT, steps[..n], [steps[n]] + later);
      Unfold(c, s, steps[n], later);
      NotAllOpen(Exec(c, INIT, steps[..n + 1] + later).trace, Takes(c, s, steps[n]).value, |s.trace|);
      OnceMeansOpenReached(c, steps[..n + 1] + later);
      assert !Settles(c, steps, n + 1);
    }
  }

  lemma GuardedOnce(c: Config, steps: seq<Step>, n: nat, later: seq<Step>)
    requires GuardedRun(c, INIT, steps) && n <= |steps| && NoFetch(later)
    ensures SentOncePerSave(Exec(c, INIT, steps[..n] + later).trace)
  {
    hide Exec, Next, GuardedRun, Guarded, SentOncePerSave;
    assert steps == steps[..n] + steps[n..];
    GuardedConcat(c, INIT, steps[..n], steps[n..]);
    GuardedConcat(c, INIT, steps[..n], later);
    NoFetchIsGuarded(c, Exec(c, INIT, steps[..n]), later);
    GuardedKeepsOpen(c, INIT, steps[..n] + later);
    OpenMeansOnce(Exec(c, INIT, steps[..n] + later).trace);
  }

  lemma OnceMeansOpenReached(c: Config, steps: seq<Step>)
    ensures SentOncePerSave(Exec(c, INIT, steps).trace) <==> AllSentWhileOpen(Exec(c, INIT, steps).trace)
  {
    hide Exec, SentFromSaved, SentOncePerSave, AllSentWhileOpen;
    ExecKeepsInv(c, INIT, steps);
    OnceMeansOpen(c, Exec(c, INIT, steps).trace);
  }

  /**
    Overlapping handlers do resubmit: whatever template is saved, if its solution would be sent at
    all, two handlers given it at once send it twice, and both sends may be accepted.
  */
  lemma OverlapResubmits(c: Config, hash: Hash, data: BlockTemplateData, now: Time, param: string)
    requires var saved := Next(c, INIT, SaveTemplate(hash, data, now)); MakePlan(c, saved.blocks, param).Submission?
    ensures var steps := [SaveTemplate(hash, data, now), Fetch(0, param), Fetch(1, param),
                          Submit(0, true), Submit(1, true)];
            !SentOncePerSave(Exec(c, INIT, steps).trace)
  {
    hide MakePlan, Exec;
    var save := SaveTemplate(hash, data, now);
    var s1 := Next(c, INIT, save);
    PlanIsFromTemplate(c, s1.blocks, param);
    var p := MakePlan(c, s1.blocks, param);
    var s2 := Next(c, s1, Fetch(0, param));
    var s3 := Next(c, s2, Fetch(1, param));
    var s4 := Next(c, s3, Submit(0, true));
    var s5 := Next(c, s4, Submit(1, true));
    assert s1.trace == [Saved(hash, data)];
    var e := Sent(p.hash, p.monero, p.data, p.block, true);
    assert s5.trace == [Saved(hash, data), e, e];
    ExecFive(c, INIT, save, Fetch(0, param), Fetch(1, param), Submit(0, true), Submit(1, true));
    assert s5.trace[1] == e && s5.trace[2] == e;
    assert !SavedBetween(s5.trace, p.hash, 1, 2);
  }

  // ---------------------------------------------------------------------------------------------
  // When a saved template stays retrievable

  /** Handler t works on h: it may yet remove what is saved under h. */
  predicate Busy(s: State, t: nat, h: Hash) {
    t in s.tasks && !s.tasks[t].Evicting? && s.tasks[t].hash == h
  }

  /** Handlers going on until the time given, with no solution taken up and nothing saved under h. */
  predicate Finishing(steps: seq<Step>, h: Hash, until: Time) {
    forall k :: 0 <= k < |steps| ==>
      && !steps[k].Fetch? && (steps[k].SaveTemplate? ==> steps[k].hash != h)
      && (steps[k].Evict? ==> steps[k].now <= until)
  }

  lemma {:induction false} UndisturbedStays(c: Config, s: State, steps: seq<Step>, h: Hash, item: Item)
    requires h in s.blocks && s.blocks[h] == item && (forall t :: !Busy(s, t, h))
    requires Finishing(steps, h, item.datetime + RETENTION)
    ensures h in Exec(c, s, steps).blocks && Exec(c, s, steps).blocks[h] == item
    decreases |steps|
  {
    hide MakePlan;
    if steps != [] {
      var s' := Next(c, s, steps[0]);
      forall t ensures !Busy(s', t, h) {
        assert !Busy(s, t, h);
      }
      if steps[0].RemoveHash? {
        assert !Busy(s, steps[0].task, h);
      }
      UndisturbedStays(c, s', steps[1..], h, item);
    }
  }

  /**
    A template just saved stays in the cache for its twenty minutes, whatever the handlers at work
    do, if and only if none of them is working on its hash. So a save between an accepted submission
    and the removal after it can be lost.
  */
  lemma SavedStays(c: Config, s: State, h: Hash, d: BlockTemplateData, now: Time)
    ensures (forall t :: !Busy(s, t, h)) <==>
            forall later :: Finishing(later, h, now + RETENTION) ==>
              var s' := Exec(c, Next(c, s, SaveTemplate(h, d, now)), later);
              h in s'.blocks && s'.blocks[h] == Item(d, now)
  {
    hide Exec;
    var s1 := Next(c, s, SaveTemplate(h, d, now));
    if forall t :: !Busy(s, t, h) {
      forall t ensures !Busy(s1, t, h) {
        assert !Busy(s, t, h);
      }
      forall later | Finishing(later, h, now + RETENTION)
        ensures h in Exec(c, s1, later).blocks && Exec(c, s1, later).blocks[h] == Item(d, now)
      {
        UndisturbedStays(c, s1, later, h, Item(d, now));
      }
    } else {
      var t :| Busy(s, t, h);
      var later := [Submit(t, true), RemoveHash(t)];
      var s2 := Next(c, s1, Submit(t, true));
      var s3 := Next(c, s2, RemoveHash(t));
      assert later == [Submit(t, true)] + [RemoveHash(t)] && [RemoveHash(t)] == [RemoveHash(t)] + [];
      Unfold(c, s1, Submit(t, true), [RemoveHash(t)]);
      Unfold(c, s2, RemoveHash(t), []);
      Unfold(c, s3, RemoveHash(t), []);
      assert Finishing(later, h, now + RETENTION);
      assert h !in s3.blocks;
    }
  }

  lemma Unfold(c: Config, s: State, step: Step, rest: seq<Step>)
    ensures Exec(c, s, [step] + rest) == Exec(c, Next(c, s, step), rest)
    ensures Exec(c, s, []) == s
  {
  }

  lemma ExecFive(c: Config, s: State, a: Step, b: Step, d: Step, e: Step, f: Step)
    ensures Exec(c, s, [a, b, d, e, f]) == Next(c, Next(c, Next(c, Next(c, Next(c, s, a), b), d), e), f)
  {
    hide Next, Exec;
    var s1 := Next(c, s, a);
    var s2 := Next(c, s1, b);
    var s3 := Next(c, s2, d);
    var s4 := Next(c, s3, e);
    assert [a, b, d, e, f] == [a] + [b, d, e, f] && [b, d, e, f] == [b] + [d, e, f];
    assert [d, e, f] == [d] + [e, f] && [e, f] == [e] + [f] && [f] == [f] + [];
    Unfold(c, s, a, [b, d, e, f]);
    Unfold(c, s1, b, [d, e, f]);
    Unfold(c, s2, d, [e, f]);
    Unfold(c, s3, e, [f]);
    Unfold(c, s4, f, []);
    Unfold(c, Next(c, s4, f), f, []);
  }
}
