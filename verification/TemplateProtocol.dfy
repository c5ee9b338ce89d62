/**
  The retry loop of applications/tari_merge_mining_proxy/src/block_template_protocol.rs: templates
  are fetched from the base node until one is still ahead of the chain tip when its block is built.
  The node and the wallet may answer anything; what they answer in each round is part of the input.
*/
module TemplateProtocol {
  import opened Bytes
  import opened Wrappers
  import opened TemplateRepository

  datatype Template = Template(height: Option<nat>, content: seq<byte>)
  datatype NewTemplate = NewTemplate(template: Template, minerData: MinerData)
  datatype CoinbaseRequest = CoinbaseRequest(reward: nat, fee: nat, height: nat, extra: seq<byte>)
  type Transaction = seq<byte>

  /** The node's assembled block; its `block` field may be missing. */
  datatype NewBlock = NewBlock(block: Option<TariBlock>, mergeMiningHash: Hash)

  datatype MoneroMiningData = MoneroMiningData(seedHash: seq<byte>, blob: string, difficulty: nat)

  datatype FinalTemplate = FinalTemplate(
    template: BlockTemplateData, targetDifficulty: nat, blockhashingBlob: string, blocktemplateBlob: string,
    mergeMiningHash: Hash)

  datatype Error = GrpcError | MissingField | MergeMineError | ConversionError | NotSynced

  datatype BlockReply = Assembled(block: NewBlock) | FailedPrecondition | OtherStatus

  /** One round of answers; `tipAtFetch` and `tipAtEnd` are the node's height as it issues them. */
  datatype Round = Round(
    template: Result<NewTemplate, Error>,
    coinbase: CoinbaseRequest -> Result<Transaction, Error>,
    tip: Result<Option<nat>, Error>,
    assemble: Template -> BlockReply,
    tipAtFetch: nat, tipAtEnd: nat)

  /** The settings and the functions of the merge-mining library, taken as arbitrary. */
  datatype Config = Config(
    extra: seq<byte>,
    addCoinbase: (Transaction, Template) -> Option<Template>,
    tag: (string, Hash) -> Option<string>,
    hashingBlob: (string, Hash) -> Option<string>)

  function HeightOf(t: Template): nat {
    if t.height.Some? then t.height.value else 0
  }

  function TipOf(tip: Option<nat>): nat {
    if tip.Some? then tip.value else 0
  }

  /** Ahead of the tip: a template without a header never is, and without a tip height every other but height 0 is. */
  lemma AheadExact(t: Template, tip: Option<nat>)
    ensures HeightOf(t) > TipOf(tip) <==>
            t.height.Some? && t.height.value > 0 && (tip.Some? ==> t.height.value > tip.value)
  {
  }

  // ---------------------------------------------------------------------------------------------
  // One round

  /** `add_monero_data`: the block and the Monero template joined by the merge-mining tag. */
  method AddMoneroData(c: Config, newBlock: NewBlock, monero: MoneroMiningData, t: NewTemplate)
    returns (r: Result<FinalTemplate, Error>)
    ensures r.Ok? <==> newBlock.block.Some? && c.tag(monero.blob, newBlock.mergeMiningHash).Some?
                       && c.hashingBlob(monero.blob, newBlock.mergeMiningHash).Some?
    ensures r.Err? ==> r.error == if newBlock.block.None? then MissingField else MergeMineError
    ensures r.Ok? ==> Joined(c, newBlock, monero, t, r.value)
  {
    var tariDifficulty := t.minerData.targetDifficulty;
    if newBlock.block.None? {
      return Err(MissingField);
    }
    var data := BlockTemplateData(monero.seedHash, newBlock.block.value, t.minerData,
                                  monero.difficulty, tariDifficulty);
    var tagged := c.tag(monero.blob, newBlock.mergeMiningHash);
    if tagged.None? {
      return Err(MergeMineError);
    }
    var hashing := c.hashingBlob(monero.blob, newBlock.mergeMiningHash);
    if hashing.None? {
      return Err(MergeMineError);
    }
    var miningDifficulty := if monero.difficulty < tariDifficulty then monero.difficulty else tariDifficulty;
    r := Ok(FinalTemplate(data, miningDifficulty, hashing.value, tagged.value, newBlock.mergeMiningHash));
  }

  /** Every part of the result comes from this block, this template and this Monero data. */
  predicate Joined(c: Config, newBlock: NewBlock, monero: MoneroMiningData, t: NewTemplate, f: FinalTemplate) {
    && newBlock.block == Some(f.template.tariBlock)
    && f.template.minerData == t.minerData && f.template.tariDifficulty == t.minerData.targetDifficulty
    && f.template.moneroSeed == monero.seedHash && f.template.moneroDifficulty == monero.difficulty
    && f.mergeMiningHash == newBlock.mergeMiningHash
    && c.tag(monero.blob, f.mergeMiningHash) == Some(f.blocktemplateBlob)
    && c.hashingBlob(monero.blob, f.mergeMiningHash) == Some(f.blockhashingBlob)
    && f.targetDifficulty <= monero.difficulty && f.targetDifficulty <= f.template.tariDifficulty
    && (f.targetDifficulty == monero.difficulty || f.targetDifficulty == f.template.tariDifficulty)
  }

  /** The result was built, start to end, from the one template of this round, which was ahead of the tip. */
  predicate BuiltIn(c: Config, round: Round, monero: MoneroMiningData, f: FinalTemplate) {
    && round.template.Ok? && round.tip.Ok?
    && var t := round.template.value;
       var coinbase := round.coinbase(
         CoinbaseRequest(t.minerData.reward, t.minerData.totalFees, HeightOf(t.template), c.extra));
       && coinbase.Ok?
       && HeightOf(t.template) > TipOf(round.tip.value)
       && var filled := c.addCoinbase(coinbase.value, t.template);
          && filled.Some? && round.assemble(filled.value).Assembled?
          && Joined(c, round.assemble(filled.value).block, monero, t, f)
  }

  /** The template was overtaken: by the time the tip was checked, or by the time its block was built. */
  predicate Overtaken(c: Config, round: Round) {
    && round.template.Ok? && round.tip.Ok?
    && var t := round.template.value;
       var coinbase := round.coinbase(
         CoinbaseRequest(t.minerData.reward, t.minerData.totalFees, HeightOf(t.template), c.extra));
       && coinbase.Ok?
       && (HeightOf(t.template) > TipOf(round.tip.value) ==>
             var filled := c.addCoinbase(coinbase.value, t.template);
             filled.Some? && round.assemble(filled.value).FailedPrecondition?)
  }

  /** The round fails with e: a request failed, the coinbase did not fit, or the block could not be joined. */
  predicate FailsWith(c: Config, round: Round, monero: MoneroMiningData, e: Error) {
    || round.template == Err(e)
    || (round.template.Ok? &&
        var t := round.template.value;
        var coinbase := round.coinbase(
          CoinbaseRequest(t.minerData.reward, t.minerData.totalFees, HeightOf(t.template), c.extra));
        || coinbase == Err(e)
        || (coinbase.Ok? && round.tip == Err(e))
        || (coinbase.Ok? && round.tip.Ok? && HeightOf(t.template) > TipOf(round.tip.value) &&
            match c.addCoinbase(coinbase.value, t.template)
            case None => e == ConversionError
            case Some(filled) =>
              match round.assemble(filled)
              case FailedPrecondition => false
              case OtherStatus => e == GrpcError
              case Assembled(block) =>
                if block.block.None? then e == MissingField
                else
                  && (c.tag(monero.blob, block.mergeMiningHash).None?
                      || c.hashingBlob(monero.blob, block.mergeMiningHash).None?)
                  && e == MergeMineError))
  }

  /** Round k decides: it is the first that is not overtaken. */
  predicate Decides(c: Config, rounds: seq<Round>, k: int) {
    0 <= k < |rounds| && !Overtaken(c, rounds[k]) && forall j :: 0 <= j < k ==> Overtaken(c, rounds[j])
  }

  // ---------------------------------------------------------------------------------------------
  // The loop

  /** `retries` rounds were overtaken before the one that decided; None when all the rounds were. */
  method GetNextBlockTemplate(c: Config, rounds: seq<Round>, monero: MoneroMiningData)
    returns (r: Option<Result<FinalTemplate, Error>>, retries: nat)
    ensures retries <= |rounds| && forall k :: 0 <= k < retries ==> Overtaken(c, rounds[k])
    ensures r.None? <==> retries == |rounds|
    ensures r.Some? ==> !Overtaken(c, rounds[retries])
    ensures r.Some? && r.value.Ok? ==> BuiltIn(c, rounds[retries], monero, r.value.value)
    ensures r.Some? && r.value.Err? ==>
              && FailsWith(c, rounds[retries], monero, r.value.error)
              && forall f :: !BuiltIn(c, rounds[retries], monero, f)
  {
    retries := 0;
    while retries < |rounds|
      invariant retries <= |rounds| && forall k :: 0 <= k < retries ==> Overtaken(c, rounds[k])
    {
      var round := rounds[retries];
      if round.template.Err? {
        return Some(Err(round.template.error)), retries;
      }
      var t := round.template.value;
      var templateHeight := HeightOf(t.template);
      var coinbase := round.coinbase(
        CoinbaseRequest(t.minerData.reward, t.minerData.totalFees, templateHeight, c.extra));
      if coinbase.Err? {
        return Some(Err(coinbase.error)), retries;
      }
      if round.tip.Err? {
        return Some(Err(round.tip.error)), retries;
      }
      if templateHeight <= TipOf(round.tip.value) {
        retries := retries + 1;
        continue;
      }
      var filled := c.addCoinbase(coinbase.value, t.template);
      if filled.None? {
        return Some(Err(ConversionError)), retries;
      }
      match round.assemble(filled.value) {
        case FailedPrecondition =>
          retries := retries + 1;
          continue;
        case OtherStatus =>
          return Some(Err(GrpcError)), retries;
        case Assembled(newBlock) =>
          var final := AddMoneroData(c, newBlock, monero, t);
          return Some(final), retries;
      }
    }
    r := None;
  }

  /**
    A node that keeps its word: heights never fall, a template is ahead of the tip it was issued at,
    the reported tip is a height it had, and it refuses a block only after the tip has moved.
  */
  ghost predicate Sound(c: Config, rounds: seq<Round>) {
    && (forall k :: 0 <= k < |rounds| ==> SoundRound(c, rounds[k]))
    && (forall k :: 0 < k < |rounds| ==> rounds[k - 1].tipAtEnd <= rounds[k].tipAtFetch)
  }

  ghost predicate SoundRound(c: Config, round: Round) {
    && round.tipAtFetch <= round.tipAtEnd
    && (round.template.Ok? ==> HeightOf(round.template.value.template) > round.tipAtFetch)
    && (round.tip.Ok? ==> TipOf(round.tip.value) <= round.tipAtEnd)
    && (forall t :: round.assemble(t).FailedPrecondition? ==> round.tipAtFetch < round.tipAtEnd)
  }

  /** Each retry is paid for by an advance of the tip: n of them take the tip at least n up. */
  lemma {:induction false} RetriesBounded(c: Config, rounds: seq<Round>, n: nat)
    requires Sound(c, rounds) && 0 < n <= |rounds|
    requires forall k :: 0 <= k < n ==> Overtaken(c, rounds[k])
    ensures rounds[n - 1].tipAtEnd >= rounds[0].tipAtFetch + n
  {
    assert SoundRound(c, rounds[n - 1]) && Overtaken(c, rounds[n - 1]);
    if n > 1 {
      RetriesBounded(c, rounds, n - 1);
      assert rounds[n - 2].tipAtEnd <= rounds[n - 1].tipAtFetch;
    }
  }

  /** A template without a header counts as height 0, which no tip is below: the loop never uses it. */
  lemma HeaderlessNeverUsed(c: Config, round: Round, monero: MoneroMiningData, f: FinalTemplate)
    requires round.template.Ok? && round.template.value.template.height.None?
    ensures !BuiltIn(c, round, monero, f)
    ensures var data := round.template.value.minerData;
            round.tip.Ok? && round.coinbase(CoinbaseRequest(data.reward, data.totalFees, 0, c.extra)).Ok? ==>
              Overtaken(c, round)
  {
  }
}
