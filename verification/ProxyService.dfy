/**
  The request handlers of applications/tari_merge_mining_proxy/src/proxy.rs as they are written,
  serving one request at a time: block submission and the saving of a handed-out template.
*/
module ProxyService {
  import opened Wrappers
  import opened TemplateRepository
  import opened SubmitBlock
  import Protocol = TemplateProtocol

  // ---------------------------------------------------------------------------------------------
  // A submission request as steps of the concurrent model

  function HandleParam(c: Config, s: State, param: string, accepted: bool, now: Time): State {
    var fetched := Next(c, s, Fetch(0, param));
    if 0 !in fetched.tasks then fetched
    else Next(c, Next(c, Next(c, fetched, Submit(0, accepted)), RemoveHash(0)), Evict(0, now))
  }

  /**
    The parameters from the i-th on; parameters that are not strings are skipped, and an error ends
    the request. `accepts` and `clock` are the node's answer and the time at each parameter.
  */
  function HandleParams(c: Config, s: State, params: seq<Option<string>>,
                        accepts: nat -> bool, clock: nat -> Time, i: nat)
    : (State, Result<(), ProxyError>)
    requires i <= |params|
    decreases |params| - i
  {
    if i == |params| then (s, Ok(()))
    else if params[i].None? then HandleParams(c, s, params, accepts, clock, i + 1)
    else
      var plan := MakePlan(c, s.blocks, params[i].value);
      if plan.Fail? then (s, Err(plan.error))
      else HandleParams(c, HandleParam(c, s, params[i].value, accepts(i), clock(i)), params, accepts, clock, i + 1)
  }

  /** The state after the first n parameters, each string among them handled in turn. */
  function After(c: Config, s: State, params: seq<Option<string>>, accepts: nat -> bool, clock: nat -> Time, n: nat)
    : State
    requires n <= |params|
  {
    if n == 0 then s
    else
      var before := After(c, s, params, accepts, clock, n - 1);
      if params[n - 1].None? then before
      else HandleParam(c, before, params[n - 1].value, accepts(n - 1), clock(n - 1))
  }

  /** Parameter n is a string that cannot be turned into anything to submit or to skip. */
  predicate Fails(c: Config, s: State, params: seq<Option<string>>, accepts: nat -> bool, clock: nat -> Time, n: nat)
    requires n < |params|
  {
    params[n].Some? && MakePlan(c, After(c, s, params, accepts, clock, n).blocks, params[n].value).Fail?
  }

  lemma {:induction false} ParamsFrom(c: Config, s: State, params: seq<Option<string>>, accepts: nat -> bool,
                                      clock: nat -> Time, i: nat, n: nat)
    requires i <= n <= |params| && forall k :: i <= k < n ==> !Fails(c, s, params, accepts, clock, k)
    ensures HandleParams(c, After(c, s, params, accepts, clock, i), params, accepts, clock, i) ==
            HandleParams(c, After(c, s, params, accepts, clock, n), params, accepts, clock, n)
    decreases n - i
  {
    hide MakePlan, HandleParam;
    if i < n {
      assert !Fails(c, s, params, accepts, clock, i);
      ParamsFrom(c, s, params, accepts, clock, i + 1, n);
    }
  }

  /**
    A request handles its string parameters in order up to the first that fails, whose error it
    returns leaving the rest alone, and all of them if none does.
  */
  lemma ParamsInOrder(c: Config, s: State, params: seq<Option<string>>,
                      accepts: nat -> bool, clock: nat -> Time, n: nat)
    requires n <= |params| && forall k :: 0 <= k < n ==> !Fails(c, s, params, accepts, clock, k)
    requires n < |params| ==> Fails(c, s, params, accepts, clock, n)
    ensures var (s', r) := HandleParams(c, s, params, accepts, clock, 0);
            && s' == After(c, s, params, accepts, clock, n)
            && (n == |params| ==> r == Ok(()))
            && (n < |params| ==> r == Err(MakePlan(c, s'.blocks, params[n].value).error))
  {
    hide MakePlan, HandleParam;
    ParamsFrom(c, s, params, accepts, clock, 0, n);
  }

  /** Between requests: nobody is busy, and both invariants of the concurrent model hold. */
  ghost predicate Quiet(c: Config, s: State) {
    s.tasks == map[] && Inv(c, s) && OpenInv(s)
  }

  lemma StepAlone(c: Config, s: State, step: Step)
    requires s.tasks.Keys <= {0} && Inv(c, s) && OpenInv(s)
    requires step.SaveTemplate? || step.task == 0
    ensures var s' := Next(c, s, step); s'.tasks.Keys <= {0} && Inv(c, s') && OpenInv(s')
  {
    hide Inv, OpenInv, MakePlan, Open;
    assert Guarded(c, s, step);
    StepKeepsInv(c, s, step);
    StepKeepsOpen(c, s, step);
  }

  lemma HandleParamKeepsQuiet(c: Config, s: State, param: string, accepted: bool, now: Time)
    requires Quiet(c, s)
    ensures Quiet(c, HandleParam(c, s, param, accepted, now))
  {
    hide Inv, OpenInv, MakePlan;
    var s1 := Next(c, s, Fetch(0, param));
    StepAlone(c, s, Fetch(0, param));
    var s2 := Next(c, s1, Submit(0, accepted));
    StepAlone(c, s1, Submit(0, accepted));
    var s3 := Next(c, s2, RemoveHash(0));
    StepAlone(c, s2, RemoveHash(0));
    var s4 := Next(c, s3, Evict(0, now));
    StepAlone(c, s3, Evict(0, now));
    if 0 in s1.tasks {
      assert s4.tasks.Keys == {};
    }
  }

  /** What one parameter does to the cache and to the node, all steps together. */
  lemma ParamOutcome(c: Config, s: State, param: string, accepted: bool, now: Time)
    requires s.tasks == map[]
    ensures HandleParam(c, s, param, accepted, now) ==
            match MakePlan(c, s.blocks, param)
            case Submission(hash, monero, data, block) =>
              s.(blocks := Fresh(if accepted then s.blocks - {hash} else s.blocks, now - RETENTION),
                 trace := s.trace + [Sent(hash, monero, data, block, accepted)])
            case BelowTarget => s.(blocks := Fresh(s.blocks, now - RETENTION))
            case _ => s
  {
    hide MakePlan, Fresh;
    var s1 := Next(c, s, Fetch(0, param));
    if MakePlan(c, s.blocks, param).Submission? || MakePlan(c, s.blocks, param).BelowTarget? {
      assert s1.tasks.Keys == {0};
      var s3 := Next(c, Next(c, s1, Submit(0, accepted)), RemoveHash(0));
      assert s3.tasks.Keys == {0} && s3.tasks[0].Evicting?;
      assert s3.tasks - {0} == map[];
    }
  }

  class InnerService {
    const config: Config
    const templates: BlockTemplateRepository
    var initialSyncAchieved: bool
    ghost var trace: seq<Event>

    constructor (config: Config)
      ensures this.config == config && fresh(templates) && !initialSyncAchieved
      ensures Valid() && trace == [] && templates.blocks == map[]
    {
      this.config := config;
      templates := new BlockTemplateRepository();
      initialSyncAchieved := false;
      trace := [];
    }

    ghost function View(): State
      reads this, templates
    {
      State(templates.blocks, map[], trace)
    }

    ghost predicate Valid()
      reads this, templates
    {
      templates.Valid() && Quiet(config, View())
    }

    /**
      A template request. `nodeSynced` is what the node says of its sync, None if it does not answer;
      `rounds` are its answers to the retry loop. None is returned when those run out undecided.
    */
    method HandleGetBlockTemplate(c: Protocol.Config, waitForSync: bool, nodeSynced: Option<bool>,
                                  monero: Protocol.MoneroMiningData, rounds: seq<Protocol.Round>, now: Time)
      returns (r: Option<Result<Protocol.FinalTemplate, Protocol.Error>>)
      requires Valid()
      modifies this, templates
      ensures Valid()
      ensures initialSyncAchieved <==> old(initialSyncAchieved) || nodeSynced == Some(true)
      ensures !initialSyncAchieved && nodeSynced.None? ==> r == Some(Err(Protocol.GrpcError))
      ensures !initialSyncAchieved && nodeSynced.Some? && waitForSync ==> r == Some(Err(Protocol.NotSynced))
      ensures r.Some? && r.value.Ok? <==>
              && (initialSyncAchieved || (nodeSynced.Some? && !waitForSync))
              && exists k, f :: Protocol.Decides(c, rounds, k) && Protocol.BuiltIn(c, rounds[k], monero, f)
      ensures r.Some? && r.value.Ok? ==>
                var f := r.value.value;
                && View() == Next(config, old(View()), SaveTemplate(f.mergeMiningHash, f.template, now))
                && exists k :: Protocol.Decides(c, rounds, k) && Protocol.BuiltIn(c, rounds[k], monero, f)
      ensures !(r.Some? && r.value.Ok?) ==> View() == old(View())
    {
      hide Inv, OpenInv, Protocol.Overtaken, Protocol.BuiltIn, Protocol.FailsWith;
      if !initialSyncAchieved {
        if nodeSynced.None? {
          return Some(Err(Protocol.GrpcError));
        }
        if nodeSynced.value {
          initialSyncAchieved := true;
        } else if waitForSync {
          return Some(Err(Protocol.NotSynced));
        }
      }
      var retries;
      r, retries := Protocol.GetNextBlockTemplate(c, rounds, monero);
      assert r.Some? ==> Protocol.Decides(c, rounds, retries);
      assert forall k :: Protocol.Decides(c, rounds, k) ==> k == retries;
      if r.Some? && r.value.Ok? {
        var final := r.value.value;
        StepAlone(config, View(), SaveTemplate(final.mergeMiningHash, final.template, now));
        templates.Save(final.mergeMiningHash, final.template, now);
        trace := trace + [Saved(final.mergeMiningHash, final.template)];
      }
    }

    /** `params` is None when the request's parameters are not an array. */
    method HandleSubmitBlock(params: Option<seq<Option<string>>>, accepts: nat -> bool, clock: nat -> Time)
      returns (r: Result<(), ProxyError>)
      requires Valid()
      modifies this, templates
      ensures Valid() && SentOncePerSave(trace)
      ensures params.None? ==> View() == old(View()) && r == Err(WrongParam)
      ensures params.Some? ==> (View(), r) == HandleParams(config, old(View()), params.value, accepts, clock, 0)
    {
      hide Inv, OpenInv, SentOncePerSave, FromTemplate;
      if params.None? {
        Once();
        return Err(WrongParam);
      }
      var list := params.value;
      ghost var s0 := View();
      for i := 0 to |list|
        invariant Valid()
        invariant HandleParams(config, s0, list, accepts, clock, 0) ==
                  HandleParams(config, View(), list, accepts, clock, i)
      {
        if list[i].Some? {
          var error := HandleOne(list[i].value, accepts(i), clock(i));
          if error.Some? {
            Once();
            return Err(error.value);
          }
        }
      }
      Once();
      r := Ok(());
    }

    lemma Once()
      requires Valid()
      ensures SentOncePerSave(trace)
    {
      OpenMeansOnce(trace);
    }

    /** Everything the handler computes before it calls the node. */
    method Prepare(param: string) returns (plan: Plan)
      requires templates.Valid()
      ensures plan == MakePlan(config, templates.blocks, param)
    {
      var monero := config.deserialize(param);
      if monero.None? {
        return Fail(InvalidMoneroBlock);
      }
      var extracted := config.extractHash(monero.value);
      if extracted.Err? {
        return Fail(extracted.error);
      }
      if extracted.value.None? {
        return Fail(MissingData);
      }
      var hash := extracted.value.value;
      var found := templates.Get(hash);
      if found.None? {
        return NoTemplate;
      }
      var blockData := found.value;
      var pow := config.powData(monero.value, blockData.moneroSeed);
      if pow.None? {
        return Fail(MergeMineError);
      }
      if blockData.tariBlock.header.None? || blockData.tariBlock.header.value.powData.None? {
        return Fail(Panicked);
      }
      var header := blockData.tariBlock.header.value;
      header := header.(powData := Some(header.powData.value + pow.value));
      if !config.converts(header) {
        return Fail(ConversionError);
      }
      var achievedTarget := blockData.tariDifficulty;
      if config.checkDifficulty {
        var diff := config.difficulty(header);
        if diff.None? {
          return Fail(DifficultyError);
        }
        achievedTarget := diff.value;
      }
      if achievedTarget >= blockData.tariDifficulty {
        plan := Submission(hash, monero.value, blockData, blockData.tariBlock.(header := Some(header)));
      } else {
        plan := BelowTarget;
      }
    }

    /** One turn of the loop; an error leaves everything as it was. */
    method HandleOne(param: string, accepted: bool, now: Time) returns (error: Option<ProxyError>)
      requires Valid()
      modifies this, templates
      ensures Valid()
      ensures var plan := MakePlan(config, old(View()).blocks, param);
              if plan.Fail? then error == Some(plan.error) && View() == old(View())
              else error == None && View() == HandleParam(config, old(View()), param, accepted, now)
    {
      hide Inv, OpenInv, MakePlan, HandleParam, Fresh;
      HandleParamKeepsQuiet(config, View(), param, accepted, now);
      ParamOutcome(config, View(), param, accepted, now);
      var plan := Prepare(param);
      match plan {
        case Fail(e) => return Some(e);
        case NoTemplate => return None;
        case BelowTarget =>
        case Submission(hash, monero, data, block) =>
          trace := trace + [Sent(hash, monero, data, block, accepted)];
          if accepted {
            var _ := templates.Remove(hash);
          }
      }
      templates.RemoveOutdated(now);
      error := None;
    }
  }
}
