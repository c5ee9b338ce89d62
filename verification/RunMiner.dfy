/**
  The loops around the miner, applications/tari_miner/src/run_miner.rs: a mining cycle has a block
  assembled, consumes the report stream and submits at most one block; the outer loop repeats cycles
  until a limit. What the node and the wallet answer, and when, is part of the input.
*/
module RunMiner {
  import opened Bytes
  import opened Wrappers
  import opened Hasher
  import opened Miner

  datatype Block = Block(header: Option<WireHeader>, body: seq<byte>)

  datatype Cli = Cli(minDiff: Option<u64>, maxDiff: Option<u64>, maxBlocks: Option<u64>, untilHeight: Option<u64>)

  /** The miner's settings, and the functions of a header, as for a `Job`. */
  datatype Settings = Settings(
    onTipOnly: bool, threads: nat, coinbaseExtra: seq<byte>,
    difficulty: Difficulty, hash: Header -> seq<byte>, converts: Header -> bool)

  /** The node's tip: the height of its longest chain, if it has metadata, and whether it is synced. */
  datatype TipInfo = TipInfo(longestHeight: Option<u64>, initialSyncAchieved: bool)

  /** `Panicked` is the `unwrap` of absent metadata. */
  datatype MinerError =
    | GrpcConnection | GrpcStatus | Conversion | NodeNotReady | Panicked | EmptyObject(name: string)
    | MineUntilHeightReached(height: u64) | MinerLostBlock(height: u64)

  // ---------------------------------------------------------------------------------------------
  // The tip

  /** `reply` is None when the request for the tip fails. */
  function ValidateTip(reply: Option<TipInfo>, height: u64, until: Option<u64>): Result<(), MinerError> {
    if reply.None? then Err(GrpcStatus) else
    var tip := reply.value;
    if tip.longestHeight.None? then Err(Panicked) else
    var longest := tip.longestHeight.value;
    if until.Some? && longest >= until.value then Err(MineUntilHeightReached(until.value))
    else if height <= longest then Err(MinerLostBlock(height))
    else if !tip.initialSyncAchieved || tip.longestHeight.None? then Err(NodeNotReady)
    else if height <= longest then Err(MinerLostBlock(height))
    else Ok(())
  }

  /** Which answer the chain of checks gives, for every reply; the last test of the source never decides. */
  lemma ValidateTipExact(reply: Option<TipInfo>, height: u64, until: Option<u64>)
    ensures var r := ValidateTip(reply, height, until);
            match reply
            case None => r == Err(GrpcStatus)
            case Some(TipInfo(None, _)) => r == Err(Panicked)
            case Some(TipInfo(Some(longest), synced)) =>
              var reached := until.Some? && until.value <= longest;
              && (r == Ok(()) <==> synced && longest < height && !reached)
              && (r.Err? && r.error.MineUntilHeightReached? <==> reached)
              && (reached ==> r == Err(MineUntilHeightReached(until.value)))
              && (r == Err(MinerLostBlock(height)) <==> height <= longest && !reached)
              && (r == Err(NodeNotReady) <==> longest < height && !synced && !reached)
  {
  }

  // ---------------------------------------------------------------------------------------------
  // The block to mine

  datatype Body = Body(outputs: seq<seq<byte>>, kernels: seq<seq<byte>>, rest: seq<byte>)

  /** A template: the height in its header, if it has one, its body, and everything else. */
  datatype BlockTemplate = BlockTemplate(height: Option<u64>, body: Option<Body>, rest: seq<byte>)
  datatype MinerData = MinerData(reward: u64, targetDifficulty: u64, totalFees: u64)
  datatype TemplateReply = TemplateReply(template: Option<BlockTemplate>, minerData: Option<MinerData>)
  datatype CoinbaseRequest = CoinbaseRequest(reward: u64, fee: u64, height: u64, extra: seq<byte>)

  /** The coinbase transaction, if there is one, and its body, if it has one. */
  datatype CoinbaseReply = CoinbaseReply(transaction: Option<Option<Body>>)

  /** What node and wallet answer at the start of a cycle; None is a request that fails. */
  datatype Node = Node(
    template: Option<TemplateReply>,
    tip: Option<TipInfo>,
    coinbase: CoinbaseRequest -> Option<CoinbaseReply>,
    assemble: BlockTemplate -> Option<Option<Block>>)

  function ExtractCoinbase(reply: CoinbaseReply): Result<(seq<byte>, seq<byte>), MinerError> {
    if reply.transaction.None? then Err(EmptyObject("coinbase.transaction"))
    else if reply.transaction.value.None? then Err(EmptyObject("transaction.body"))
    else
      var body := reply.transaction.value.value;
      if body.outputs == [] then Err(EmptyObject("transaction.body.outputs"))
      else if body.kernels == [] then Err(EmptyObject("transaction.body.kernels"))
      else Ok((body.outputs[0], body.kernels[0]))
  }

  function RequestFor(cfg: Settings, reply: TemplateReply): Result<CoinbaseRequest, MinerError> {
    if reply.template.None? then Err(EmptyObject("new_block_template"))
    else if reply.minerData.None? then Err(EmptyObject("miner_data"))
    else if reply.template.value.height.None? then Err(EmptyObject("template.header"))
    else
      var data := reply.minerData.value;
      Ok(CoinbaseRequest(data.reward, data.totalFees, reply.template.value.height.value, cfg.coinbaseExtra))
  }

  function AskAssembly(node: Node, template: BlockTemplate): Result<Block, MinerError> {
    match node.assemble(template)
    case None => Err(GrpcStatus)
    case Some(None) => Err(EmptyObject("block"))
    case Some(Some(block)) => if block.header.None? then Err(EmptyObject("block.header")) else Ok(block)
  }

  /** The tip check before anything is asked of the wallet. */
  function FirstTipCheck(cfg: Settings, cli: Cli, node: Node, template: BlockTemplate): Result<(), MinerError> {
    if !cfg.onTipOnly then Ok(())
    else if template.height.None? then Err(EmptyObject("header"))
    else ValidateTip(node.tip, template.height.value, cli.untilHeight)
  }

  /** The assembled block and the target it is mined for. */
  function Prepare(cfg: Settings, cli: Cli, node: Node): Result<(Block, u64), MinerError> {
    if node.template.None? then Err(GrpcStatus)
    else if node.template.value.template.None? then Err(EmptyObject("new_block_template"))
    else
      var reply, template := node.template.value, node.template.value.template.value;
      var tip, request := FirstTipCheck(cfg, cli, node, template), RequestFor(cfg, reply);
      if tip.Err? then Err(tip.error)
      else if request.Err? then Err(request.error)
      else
        var coinbase := node.coinbase(request.value);
        if coinbase.None? then Err(GrpcStatus)
        else if ExtractCoinbase(coinbase.value).Err? then Err(ExtractCoinbase(coinbase.value).error)
        else if template.body.None? then Err(EmptyObject("new_block_template.body"))
        else
          var (output, kernel) := ExtractCoinbase(coinbase.value).value;
          var body := template.body.value;
          var filled := body.(outputs := body.outputs + [output], kernels := body.kernels + [kernel]);
          var block := AskAssembly(node, template.(body := Some(filled)));
          if block.Err? then Err(block.error) else Ok((block.value, reply.minerData.value.targetDifficulty))
  }

  method PrepareBlock(cfg: Settings, cli: Cli, node: Node) returns (r: Result<(Block, u64), MinerError>)
    ensures r == Prepare(cfg, cli, node)
  {
    if node.template.None? {
      return Err(GrpcStatus);
    }
    var reply := node.template.value;
    if reply.template.None? {
      return Err(EmptyObject("new_block_template"));
    }
    var blockTemplate := reply.template.value;
    if cfg.onTipOnly {
      if blockTemplate.height.None? {
        return Err(EmptyObject("header"));
      }
      var valid := ValidateTip(node.tip, blockTemplate.height.value, cli.untilHeight);
      if valid.Err? {
        return Err(valid.error);
      }
    }
    var request := RequestFor(cfg, reply);
    if request.Err? {
      return Err(request.error);
    }
    var coinbase := node.coinbase(request.value);
    if coinbase.None? {
      return Err(GrpcStatus);
    }
    var extracted := ExtractCoinbase(coinbase.value);
    if extracted.Err? {
      return Err(extracted.error);
    }
    if blockTemplate.body.None? {
      return Err(EmptyObject("new_block_template.body"));
    }
    var body := blockTemplate.body.value;
    body := body.(outputs := body.outputs + [extracted.value.0]);
    body := body.(kernels := body.kernels + [extracted.value.1]);
    blockTemplate := blockTemplate.(body := Some(body));
    var targetDifficulty := reply.minerData.value.targetDifficulty;
    var assembled := node.assemble(blockTemplate);
    if assembled.None? {
      return Err(GrpcStatus);
    }
    if assembled.value.None? {
      return Err(EmptyObject("block"));
    }
    var block := assembled.value.value;
    if block.header.None? {
      return Err(EmptyObject("block.header"));
    }
    r := Ok((block, targetDifficulty));
  }

  /**
    The block is the node's own assembly of its own template with one output and one kernel appended,
    those of the coinbase the wallet made for that template's height, reward and fees; the template
    was ahead of the tip if that is asked for; the target is the template's.
  */
  ghost predicate PreparedFrom(cfg: Settings, cli: Cli, node: Node, block: Block, target: u64) {
    exists t, data, coinbase, body :: PreparedWith(cfg, cli, node, block, target, t, data, coinbase, body)
  }

  predicate PreparedWith(cfg: Settings, cli: Cli, node: Node, block: Block, target: u64,
                         t: BlockTemplate, data: MinerData, coinbase: Body, body: Body)
  {
    && node.template == Some(TemplateReply(Some(t), Some(data))) && t.height.Some? && t.body == Some(body)
    && (cfg.onTipOnly ==> ValidateTip(node.tip, t.height.value, cli.untilHeight).Ok?)
    && node.coinbase(CoinbaseRequest(data.reward, data.totalFees, t.height.value, cfg.coinbaseExtra)) ==
       Some(CoinbaseReply(Some(Some(coinbase))))
    && coinbase.outputs != [] && coinbase.kernels != []
    && block.header.Some? && target == data.targetDifficulty
    && var filled := Body(body.outputs + coinbase.outputs[..1], body.kernels + coinbase.kernels[..1], body.rest);
       node.assemble(t.(body := Some(filled))) == Some(Some(block))
  }

  lemma FirstOnly(c: Body)
    requires c.outputs != [] && c.kernels != []
    ensures c.outputs[..1] == [c.outputs[0]] && c.kernels[..1] == [c.kernels[0]]
  {
  }

  lemma PreparedComplete(cfg: Settings, cli: Cli, node: Node, block: Block, target: u64,
                         t: BlockTemplate, data: MinerData, coinbase: Body, body: Body)
    requires PreparedWith(cfg, cli, node, block, target, t, data, coinbase, body)
    ensures Prepare(cfg, cli, node) == Ok((block, target))
  {
    hide ValidateTip;
    FirstOnly(coinbase);
  }

  lemma PreparedSound(cfg: Settings, cli: Cli, node: Node)
    requires Prepare(cfg, cli, node).Ok?
    ensures PreparedFrom(cfg, cli, node, Prepare(cfg, cli, node).value.0, Prepare(cfg, cli, node).value.1)
  {
    hide ValidateTip, PreparedWith;
    var (block, target) := Prepare(cfg, cli, node).value;
    var t, data := node.template.value.template.value, node.template.value.minerData.value;
    var request := CoinbaseRequest(data.reward, data.totalFees, t.height.value, cfg.coinbaseExtra);
    assert RequestFor(cfg, node.template.value) == Ok(request);
    var coinbase := node.coinbase(request).value.transaction.value.value;
    PreparedWitness(cfg, cli, node, block, target, t, data, coinbase, t.body.value);
  }

  lemma PreparedWitness(cfg: Settings, cli: Cli, node: Node, block: Block, target: u64,
                        t: BlockTemplate, data: MinerData, coinbase: Body, body: Body)
    requires Prepare(cfg, cli, node) == Ok((block, target))
    requires node.template == Some(TemplateReply(Some(t), Some(data))) && t.height.Some? && t.body == Some(body)
    requires node.coinbase(CoinbaseRequest(data.reward, data.totalFees, t.height.value, cfg.coinbaseExtra)) ==
             Some(CoinbaseReply(Some(Some(coinbase))))
    ensures PreparedWith(cfg, cli, node, block, target, t, data, coinbase, body)
  {
    hide ValidateTip;
    if coinbase.outputs != [] && coinbase.kernels != [] {
      FirstOnly(coinbase);
    }
  }

  lemma PreparedExact(cfg: Settings, cli: Cli, node: Node, block: Block, target: u64)
    ensures Prepare(cfg, cli, node) == Ok((block, target)) <==> PreparedFrom(cfg, cli, node, block, target)
  {
    hide Prepare, PreparedWith;
    if Prepare(cfg, cli, node) == Ok((block, target)) {
      PreparedSound(cfg, cli, node);
    }
    if t, data, coinbase, body :| PreparedWith(cfg, cli, node, block, target, t, data, coinbase, body) {
      PreparedComplete(cfg, cli, node, block, target, t, data, coinbase, body);
    }
  }

  /** The tip is known, synced, and behind both this height and the one up to which is mined. */
  predicate TipBehind(cli: Cli, tip: Option<TipInfo>, height: u64) {
    && tip.Some? && tip.value.longestHeight.Some? && tip.value.initialSyncAchieved
    && tip.value.longestHeight.value < height
    && (cli.untilHeight.Some? ==> tip.value.longestHeight.value < cli.untilHeight.value)
  }

  /** What the tip says against a template of this height. */
  predicate TipProblem(cli: Cli, tip: Option<TipInfo>, height: u64, e: MinerError) {
    match tip
    case None => e == GrpcStatus
    case Some(TipInfo(None, _)) => e == Panicked
    case Some(TipInfo(Some(longest), synced)) =>
      if cli.untilHeight.Some? && cli.untilHeight.value <= longest then
        e == MineUntilHeightReached(cli.untilHeight.value)
      else if height <= longest then e == MinerLostBlock(height)
      else !synced && e == NodeNotReady
  }

  /** What is wrong with the answers, the first thing first; each missing object by its name. */
  predicate Wrong(cfg: Settings, cli: Cli, node: Node, e: MinerError) {
    match node.template
    case None => e == GrpcStatus
    case Some(TemplateReply(None, _)) => e == EmptyObject("new_block_template")
    case Some(TemplateReply(Some(t), data)) =>
      if cfg.onTipOnly && t.height.None? then e == EmptyObject("header")
      else if cfg.onTipOnly && !TipBehind(cli, node.tip, t.height.value) then
        TipProblem(cli, node.tip, t.height.value, e)
      else if data.None? then e == EmptyObject("miner_data")
      else if t.height.None? then e == EmptyObject("template.header")
      else
        match node.coinbase(CoinbaseRequest(data.value.reward, data.value.totalFees, t.height.value, cfg.coinbaseExtra))
        case None => e == GrpcStatus
        case Some(CoinbaseReply(None)) => e == EmptyObject("coinbase.transaction")
        case Some(CoinbaseReply(Some(None))) => e == EmptyObject("transaction.body")
        case Some(CoinbaseReply(Some(Some(coinbase)))) =>
          if coinbase.outputs == [] then e == EmptyObject("transaction.body.outputs")
          else if coinbase.kernels == [] then e == EmptyObject("transaction.body.kernels")
          else if t.body.None? then e == EmptyObject("new_block_template.body")
          else WrongAssembly(node, t, t.body.value, coinbase, e)
  }

  predicate WrongAssembly(node: Node, t: BlockTemplate, body: Body, coinbase: Body, e: MinerError)
    requires coinbase.outputs != [] && coinbase.kernels != []
  {
    var filled := Body(body.outputs + coinbase.outputs[..1], body.kernels + coinbase.kernels[..1], body.rest);
    match node.assemble(t.(body := Some(filled)))
    case None => e == GrpcStatus
    case Some(None) => e == EmptyObject("block")
    case Some(Some(block)) => block.header.None? && e == EmptyObject("block.header")
  }

  lemma TipProblemExact(cli: Cli, tip: Option<TipInfo>, height: u64, e: MinerError)
    ensures ValidateTip(tip, height, cli.untilHeight) == Err(e) <==> TipProblem(cli, tip, height, e)
    ensures ValidateTip(tip, height, cli.untilHeight).Ok? <==> TipBehind(cli, tip, height)
  {
  }

  lemma AssemblyWrong(node: Node, t: BlockTemplate, body: Body, coinbase: Body, e: MinerError)
    requires coinbase.outputs != [] && coinbase.kernels != []
    ensures var filled := body.(outputs := body.outputs + [coinbase.outputs[0]],
                                kernels := body.kernels + [coinbase.kernels[0]]);
            AskAssembly(node, t.(body := Some(filled))) == Err(e) <==> WrongAssembly(node, t, body, coinbase, e)
  {
    FirstOnly(coinbase);
  }

  lemma CoinbaseWrong(cfg: Settings, cli: Cli, node: Node, t: BlockTemplate, data: Option<MinerData>, e: MinerError)
    requires node.template == Some(TemplateReply(Some(t), data)) && FirstTipCheck(cfg, cli, node, t).Ok?
    requires !(cfg.onTipOnly && t.height.None?)
    requires cfg.onTipOnly ==> TipBehind(cli, node.tip, t.height.value)
    ensures Prepare(cfg, cli, node) == Err(e) <==> Wrong(cfg, cli, node, e)
  {
    hide FirstTipCheck, TipProblem, TipBehind, AskAssembly, WrongAssembly;
    if data.Some? && t.height.Some? {
      var request := CoinbaseRequest(data.value.reward, data.value.totalFees, t.height.value, cfg.coinbaseExtra);
      assert RequestFor(cfg, node.template.value) == Ok(request);
      match node.coinbase(request)
      case Some(CoinbaseReply(Some(Some(coinbase)))) =>
        if coinbase.outputs != [] && coinbase.kernels != [] && t.body.Some? {
          AssemblyWrong(node, t, t.body.value, coinbase, e);
        }
      case _ =>
    }
  }

  /** Every failure to prepare a block, by its error: exactly when each is given. */
  lemma PrepareErrors(cfg: Settings, cli: Cli, node: Node, e: MinerError)
    ensures Prepare(cfg, cli, node) == Err(e) <==> Wrong(cfg, cli, node, e)
  {
    hide ValidateTip, TipProblem, TipBehind, AskAssembly, WrongAssembly;
    match node.template
    case None =>
    case Some(TemplateReply(None, _)) =>
    case Some(TemplateReply(Some(t), data)) =>
      if cfg.onTipOnly && t.height.Some? {
        TipProblemExact(cli, node.tip, t.height.value, e);
      }
      if FirstTipCheck(cfg, cli, node, t).Ok? {
        CoinbaseWrong(cfg, cli, node, t, data, e);
      }
  }

  /** The node has reached the height up to which is mined, and is asked for its tip. */
  predicate AtUntilHeight(cfg: Settings, cli: Cli, node: Node, h: u64) {
    && cfg.onTipOnly && node.template.Some? && node.template.value.template.Some?
    && node.template.value.template.value.height.Some?
    && cli.untilHeight == Some(h)
    && node.tip.Some? && node.tip.value.longestHeight.Some? && node.tip.value.longestHeight.value >= h
  }

  lemma UntilHeightExact(cfg: Settings, cli: Cli, node: Node, h: u64)
    ensures Prepare(cfg, cli, node) == Err(MineUntilHeightReached(h)) <==> AtUntilHeight(cfg, cli, node, h)
  {
    hide Prepare;
    PrepareErrors(cfg, cli, node, MineUntilHeightReached(h));
    if cfg.onTipOnly && node.template.Some? && node.template.value.template.Some?
       && node.template.value.template.value.height.Some? {
      var height := node.template.value.template.value.height.value;
      if node.tip.Some? && node.tip.value.longestHeight.Some? && cli.untilHeight == Some(h)
         && node.tip.value.longestHeight.value >= h {
        assert TipProblem(cli, node.tip, height, MineUntilHeightReached(h));
      }
    }
  }

  // ---------------------------------------------------------------------------------------------
  // One cycle

  /** What the world does if the loop acts on a report. */
  datatype Reply = Reply(converts: bool, accepted: bool, tipDue: bool, tip: Option<TipInfo>)

  datatype Event = Event(report: Report, reply: Reply)

  /** A block handed to the node, and the node's answer. */
  datatype Submission = Submission(block: Block, accepted: bool)

  datatype Outcome = Outcome(result: Result<bool, MinerError>, sent: seq<Submission>)

  predicate Eligible(cli: Cli, r: Report) {
    && r.header.Some?
    && (cli.minDiff.Some? ==> cli.minDiff.value <= r.difficulty)
    && (cli.maxDiff.Some? ==> r.difficulty <= cli.maxDiff.value)
  }

  function TipCheck(cli: Cli, onTipOnly: bool, e: Event): Result<(), MinerError> {
    if onTipOnly && e.reply.tipDue then ValidateTip(e.reply.tip, e.report.height, cli.untilHeight) else Ok(())
  }

  /** The loop goes past this event: nothing to submit, and the tip, if checked, is still behind. */
  predicate Passes(cli: Cli, onTipOnly: bool, e: Event) {
    !Eligible(cli, e.report) && TipCheck(cli, onTipOnly, e).Ok?
  }

  /**
    Which reports are submitted and which are passed over: a header whose difficulty lies between the
    limits is submitted, whatever the tip; any other report is passed unless a tip check is due and
    the tip is unknown, unsynced, at the report's height or at the height up to which is mined.
  */
  lemma PassesExact(cli: Cli, onTipOnly: bool, e: Event)
    ensures var lowest, highest := if cli.minDiff.Some? then cli.minDiff.value else 0,
                                   if cli.maxDiff.Some? then cli.maxDiff.value else U64 - 1;
            var eligible := e.report.header.Some? && lowest <= e.report.difficulty <= highest;
            && (Eligible(cli, e.report) <==> eligible)
            && (Passes(cli, onTipOnly, e) <==>
                  !eligible && (onTipOnly && e.reply.tipDue ==> TipBehind(cli, e.reply.tip, e.report.height)))
  {
    ValidateTipExact(e.reply.tip, e.report.height, cli.untilHeight);
  }

  /** How the first event that does not pass ends the loop. */
  function EndsWith(block: Block, cli: Cli, onTipOnly: bool, e: Event): Outcome
    requires !Passes(cli, onTipOnly, e)
  {
    if !Eligible(cli, e.report) then Outcome(Err(TipCheck(cli, onTipOnly, e).error), [])
    else if !e.reply.converts then Outcome(Err(Conversion), [])
    else Outcome(if e.reply.accepted then Ok(true) else Err(GrpcStatus),
                 [Submission(block.(header := e.report.header), e.reply.accepted)])
  }

  function ReportLoop(block: Block, cli: Cli, onTipOnly: bool, events: seq<Event>): Outcome {
    if events == [] then Outcome(Ok(false), [])
    else if Passes(cli, onTipOnly, events[0]) then ReportLoop(block, cli, onTipOnly, events[1..])
    else EndsWith(block, cli, onTipOnly, events[0])
  }

  /** The loop over the report stream; `sent` is every block handed to the node. */
  method ConsumeReports(block: Block, cli: Cli, onTipOnly: bool, events: seq<Event>)
    returns (r: Result<bool, MinerError>, sent: seq<Submission>)
    ensures Outcome(r, sent) == ReportLoop(block, cli, onTipOnly, events)
  {
    hide ValidateTip;
    var blockSubmitted := false;
    sent := [];
    for i := 0 to |events|
      invariant !blockSubmitted && sent == []
      invariant ReportLoop(block, cli, onTipOnly, events) == ReportLoop(block, cli, onTipOnly, events[i..])
    {
      var e := events[i];
      assert events[i..][0] == e && events[i..][1..] == events[i + 1..];
      if e.report.header.Some? {
        var submit := true;
        if cli.minDiff.Some? && e.report.difficulty < cli.minDiff.value {
          submit := false;
        }
        if cli.maxDiff.Some? && e.report.difficulty > cli.maxDiff.value {
          submit := false;
        }
        if submit {
          if !e.reply.converts {
            return Err(Conversion), sent;
          }
          var minedBlock := block.(header := e.report.header);
          sent := sent + [Submission(minedBlock, e.reply.accepted)];
          if !e.reply.accepted {
            return Err(GrpcStatus), sent;
          }
          blockSubmitted := true;
          break;
        }
      }
      if onTipOnly && e.reply.tipDue {
        var valid := ValidateTip(e.reply.tip, e.report.height, cli.untilHeight);
        if valid.Err? {
          return Err(valid.error), sent;
        }
      }
    }
    r := Ok(blockSubmitted);
  }

  /**
    The loop ends at the first event that does not pass: with the error of the tip check if it is not
    eligible, and otherwise with the one block it hands to the node, unless its header does not
    convert. If every event passes, the stream has ended and nothing was submitted.
  */
  lemma {:induction false} LoopExact(block: Block, cli: Cli, onTipOnly: bool, events: seq<Event>, n: nat)
    requires n <= |events| && forall k :: 0 <= k < n ==> Passes(cli, onTipOnly, events[k])
    ensures var o := ReportLoop(block, cli, onTipOnly, events);
            if n == |events| then o == Outcome(Ok(false), [])
            else
              var e := events[n];
              if !Eligible(cli, e.report) then
                TipCheck(cli, onTipOnly, e).Err? ==> o == Outcome(Err(TipCheck(cli, onTipOnly, e).error), [])
              else if !e.reply.converts then o == Outcome(Err(Conversion), [])
              else
                && o.sent == [Submission(block.(header := e.report.header), e.reply.accepted)]
                && o.result == if e.reply.accepted then Ok(true) else Err(GrpcStatus)
  {
    hide ValidateTip;
    if n > 0 {
      LoopExact(block, cli, onTipOnly, events[1..], n - 1);
    }
  }

  /** A cycle: the answers at its start, a run of the miner's threads, and the replies to its reports. */
  datatype Cycle = Cycle(node: Node, steps: seq<Step>, replies: nat -> Reply, reconnects: seq<bool>)

  function JobFor(cfg: Settings, block: Block, target: u64): Job
    requires block.header.Some?
  {
    Job(block.header.value, target, cfg.threads, false, cfg.difficulty, cfg.hash, cfg.converts)
  }

  /** The reports the stream yields in this cycle, each with its reply. */
  function EventsOf(cfg: Settings, cycle: Cycle, block: Block, target: u64): seq<Event>
    requires block.header.Some?
  {
    var items := Exec(JobFor(cfg, block, target), INIT, cycle.steps).items;
    seq(|items|, k requires 0 <= k < |items| => Event(items[k], cycle.replies(k)))
  }

  /** The stream of a cycle: as many workers as threads are set, and at most one header, as the last report. */
  lemma CycleStream(cfg: Settings, cycle: Cycle, block: Block, target: u64, k: nat)
    requires block.header.Some? && k < |EventsOf(cfg, cycle, block, target)|
    ensures var events := EventsOf(cfg, cycle, block, target);
            var workers := Exec(JobFor(cfg, block, target), INIT, cycle.steps).workers;
            && |workers| == cfg.threads && events[k].report.miner < cfg.threads
            && events[k].report.target == target && events[k].reply == cycle.replies(k)
            && (events[k].report.header.Some? ==> k == |events| - 1)
  {
    hide Exec;
    var job := JobFor(cfg, block, target);
    EveryItemHonest(job, cycle.steps, k);
    ReachableInv(job, cycle.steps);
    if Exec(job, INIT, cycle.steps).items[k].header.Some? {
      HeaderEndsStream(job, cycle.steps, k, []);
    }
  }

  lemma PreparedHasHeader(cfg: Settings, cli: Cli, node: Node)
    requires Prepare(cfg, cli, node).Ok?
    ensures Prepare(cfg, cli, node).value.0.header.Some?
  {
  }

  function CycleOutcome(cfg: Settings, cli: Cli, cycle: Cycle): Outcome {
    match Prepare(cfg, cli, cycle.node)
    case Err(e) => Outcome(Err(e), [])
    case Ok((block, target)) =>
      PreparedHasHeader(cfg, cli, cycle.node);
      ReportLoop(block, cli, cfg.onTipOnly, EventsOf(cfg, cycle, block, target))
  }

  method MiningCycle(cfg: Settings, cli: Cli, cycle: Cycle) returns (o: Outcome)
    ensures o == CycleOutcome(cfg, cli, cycle)
  {
    hide Prepare, ReportLoop, EventsOf;
    var prepared := PrepareBlock(cfg, cli, cycle.node);
    if prepared.Err? {
      return Outcome(Err(prepared.error), []);
    }
    var (block, target) := prepared.value;
    PreparedHasHeader(cfg, cli, cycle.node);
    var r, sent := ConsumeReports(block, cli, cfg.onTipOnly, EventsOf(cfg, cycle, block, target));
    o := Outcome(r, sent);
  }

  /**
    The assembled block with only nonce, timestamp and the hash that goes with them changed, not back
    in time, its own difficulty meeting the target and within the limits.
  */
  predicate MinedBlock(cfg: Settings, cli: Cli, block: Block, target: u64, mined: Block) {
    && block.header.Some? && mined.header.Some? && mined.body == block.body
    && var h, template := mined.header.value.header, block.header.value.header;
       && h == template.(nonce := h.nonce, timestamp := h.timestamp) && h.timestamp >= template.timestamp
       && mined.header.value.hash == cfg.hash(h)
       && cfg.difficulty(h) >= target
       && (cli.minDiff.Some? ==> cli.minDiff.value <= cfg.difficulty(h))
       && (cli.maxDiff.Some? ==> cfg.difficulty(h) <= cli.maxDiff.value)
  }

  lemma {:induction false} LoopSubmits(block: Block, cli: Cli, onTipOnly: bool, events: seq<Event>) returns (k: nat)
    ensures var o := ReportLoop(block, cli, onTipOnly, events);
            && |o.sent| <= 1 && (o.result == Ok(true) <==> |o.sent| == 1 && o.sent[0].accepted)
            && (o.sent != [] ==> k < |events| && Eligible(cli, events[k].report)
                                 && o.sent[0].block == block.(header := events[k].report.header))
  {
    hide ValidateTip;
    k := 0;
    if events != [] && Passes(cli, onTipOnly, events[0]) {
      var l := LoopSubmits(block, cli, onTipOnly, events[1..]);
      k := l + 1;
    }
  }

  /** A submission of this cycle: the block prepared in it, mined. */
  ghost predicate SubmittedIn(cfg: Settings, cli: Cli, cycle: Cycle, x: Submission) {
    exists block, target ::
      PreparedFrom(cfg, cli, cycle.node, block, target) && MinedBlock(cfg, cli, block, target, x.block)
  }

  /**
    Whatever the threads did, a cycle hands at most one block to the node, returns true exactly when
    the node accepted it, and that block is the one prepared in the cycle, mined.
  */
  lemma SubmittedBlock(cfg: Settings, cli: Cli, cycle: Cycle)
    ensures var o := CycleOutcome(cfg, cli, cycle);
            && |o.sent| <= 1 && (o.result == Ok(true) <==> |o.sent| == 1 && o.sent[0].accepted)
            && (o.sent != [] ==> SubmittedIn(cfg, cli, cycle, o.sent[0]))
  {
    hide Prepare, ReportLoop, PreparedFrom, Exec, ValidateTip;
    var prepared := Prepare(cfg, cli, cycle.node);
    if prepared.Ok? {
      var (block, target) := prepared.value;
      PreparedHasHeader(cfg, cli, cycle.node);
      PreparedExact(cfg, cli, cycle.node, block, target);
      var k := LoopSubmits(block, cli, cfg.onTipOnly, EventsOf(cfg, cycle, block, target));
      if CycleOutcome(cfg, cli, cycle).sent != [] {
        EveryItemHonest(JobFor(cfg, block, target), cycle.steps, k);
        assert MinedBlock(cfg, cli, block, target, CycleOutcome(cfg, cli, cycle).sent[0].block);
      }
    }
  }

  // ---------------------------------------------------------------------------------------------
  // The outer loop

  datatype Stop = BlockLimit | HeightReached | Crashed | Reconnecting | StillMining

  /** Everything handed to the node over these cycles. */
  function AllSent(cfg: Settings, cli: Cli, cycles: seq<Cycle>): seq<Submission> {
    if cycles == [] then []
    else
      var n := |cycles| - 1;
      AllSent(cfg, cli, cycles[..n]) + CycleOutcome(cfg, cli, cycles[n]).sent
  }

  function CountAccepted(sent: seq<Submission>): nat {
    if sent == [] then 0
    else CountAccepted(sent[..|sent| - 1]) + if sent[|sent| - 1].accepted then 1 else 0
  }

  predicate Ends(cfg: Settings, cli: Cli, cycles: seq<Cycle>, k: nat)
    requires k < |cycles|
  {
    match CycleOutcome(cfg, cli, cycles[k]).result
    case Err(e) =>
      || e.MineUntilHeightReached? || e.Panicked?
      || ((e.GrpcConnection? || e.GrpcStatus?) && true !in cycles[k].reconnects)
    case Ok(_) => cli.maxBlocks.Some? && CountAccepted(AllSent(cfg, cli, cycles[..k + 1])) >= cli.maxBlocks.value
  }

  /**
    Which cycles end a run, by the node's answers: one that finds the tip at the height up to which is
    mined ends it; one after which no connection attempt succeeds does; no other failure does but a
    panic; and one without an error does when the blocks accepted so far reach the limit.
  */
  lemma EndsExact(cfg: Settings, cli: Cli, cycles: seq<Cycle>, k: nat, h: u64)
    requires k < |cycles|
    ensures AtUntilHeight(cfg, cli, cycles[k].node, h) ==>
              && CycleOutcome(cfg, cli, cycles[k]) == Outcome(Err(MineUntilHeightReached(h)), [])
              && Ends(cfg, cli, cycles, k)
    ensures match CycleOutcome(cfg, cli, cycles[k]).result
            case Err(MineUntilHeightReached(_)) => Ends(cfg, cli, cycles, k)
            case Err(Panicked) => Ends(cfg, cli, cycles, k)
            case Err(GrpcStatus) => Ends(cfg, cli, cycles, k) <==> forall b :: b in cycles[k].reconnects ==> !b
            case Err(GrpcConnection) => Ends(cfg, cli, cycles, k) <==> forall b :: b in cycles[k].reconnects ==> !b
            case Err(_) => !Ends(cfg, cli, cycles, k)
            case Ok(_) =>
              Ends(cfg, cli, cycles, k) <==>
              exists m :: cli.maxBlocks == Some(m) && m <= CountAccepted(AllSent(cfg, cli, cycles[..k + 1]))
  {
    hide Prepare, AllSent, CountAccepted, ReportLoop, EventsOf;
    UntilHeightExact(cfg, cli, cycles[k].node, h);
  }

  /** Connection attempts until one succeeds, which `reconnects` may not live to see. */
  method Reconnect(reconnects: seq<bool>) returns (connected: bool)
    ensures connected <==> true in reconnects
  {
    for i := 0 to |reconnects|
      invariant true !in reconnects[..i]
    {
      if reconnects[i] {
        return true;
      }
    }
    connected := false;
  }

  method StartMiner(cfg: Settings, cli: Cli, cycles: seq<Cycle>)
    returns (stop: Stop, used: nat, blocksFound: nat, sent: seq<Submission>)
    ensures used <= |cycles| && sent == AllSent(cfg, cli, cycles[..used]) && blocksFound == CountAccepted(sent)
    ensures stop.StillMining? ==> used == |cycles| && forall k :: 0 <= k < |cycles| ==> !Ends(cfg, cli, cycles, k)
    ensures !stop.StillMining? ==>
              && 0 < used && Ends(cfg, cli, cycles, used - 1)
              && (forall k :: 0 <= k < used - 1 ==> !Ends(cfg, cli, cycles, k))
              && var r := CycleOutcome(cfg, cli, cycles[used - 1]).result;
                 && (stop.BlockLimit? <==> r.Ok?)
                 && (stop.HeightReached? <==> r.Err? && r.error.MineUntilHeightReached?)
                 && (stop.Crashed? <==> r == Err(Panicked))
    ensures forall k, h :: 0 <= k < used && AtUntilHeight(cfg, cli, cycles[k].node, h) ==>
              stop.HeightReached? && used == k + 1
  {
    hide CycleOutcome, CountAccepted, AtUntilHeight;
    assert cycles[..0] == [];
    blocksFound := 0;
    used := 0;
    sent := [];
    assert CountAccepted([]) == 0 by { CountOne(Submission(Block(None, []), true)); }
    while used < |cycles|
      invariant used <= |cycles| && sent == AllSent(cfg, cli, cycles[..used]) && blocksFound == CountAccepted(sent)
      invariant forall k :: 0 <= k < used ==> !Ends(cfg, cli, cycles, k)
      invariant forall k, h :: 0 <= k < used ==> !AtUntilHeight(cfg, cli, cycles[k].node, h)
    {
      var cycle := cycles[used];
      var o := MiningCycle(cfg, cli, cycle);
      CycleCounts(cfg, cli, cycles, used);
      forall h ensures AtUntilHeight(cfg, cli, cycle.node, h) ==> o.result == Err(MineUntilHeightReached(h)) {
        EndsExact(cfg, cli, cycles, used, h);
      }
      sent := sent + o.sent;
      used := used + 1;
      match o.result {
        case Err(GrpcConnection) | Err(GrpcStatus) =>
          var connected := Reconnect(cycle.reconnects);
          if !connected {
            return Reconnecting, used, blocksFound, sent;
          }
        case Err(MineUntilHeightReached(_)) => return HeightReached, used, blocksFound, sent;
        case Err(Panicked) => return Crashed, used, blocksFound, sent;
        case Err(_) =>
        case Ok(submitted) =>
          if submitted {
            blocksFound := blocksFound + 1;
          }
          if cli.maxBlocks.Some? && blocksFound >= cli.maxBlocks.value {
            return BlockLimit, used, blocksFound, sent;
          }
      }
    }
    stop := StillMining;
  }

  lemma CountOne(x: Submission)
    ensures CountAccepted([]) == 0 && CountAccepted([x]) == if x.accepted then 1 else 0
  {
    assert [x][..0] == [];
  }

  lemma CountSnoc(sent: seq<Submission>, x: Submission)
    ensures CountAccepted(sent + [x]) == CountAccepted(sent) + if x.accepted then 1 else 0
  {
    assert (sent + [x])[..|sent|] == sent;
  }

  /** A cycle adds one accepted block when it returns true, and none otherwise. */
  lemma CycleCounts(cfg: Settings, cli: Cli, cycles: seq<Cycle>, k: nat)
    requires k < |cycles|
    ensures var o := CycleOutcome(cfg, cli, cycles[k]);
            && AllSent(cfg, cli, cycles[..k + 1]) == AllSent(cfg, cli, cycles[..k]) + o.sent
            && CountAccepted(AllSent(cfg, cli, cycles[..k + 1])) ==
               CountAccepted(AllSent(cfg, cli, cycles[..k])) + if o.result == Ok(true) then 1 else 0
  {
    hide CycleOutcome, CountAccepted, SubmittedIn;
    assert cycles[..k + 1][..k] == cycles[..k];
    var o, before := CycleOutcome(cfg, cli, cycles[k]), AllSent(cfg, cli, cycles[..k]);
    SubmittedBlock(cfg, cli, cycles[k]);
    if o.sent == [] {
      assert before + o.sent == before;
    } else {
      assert o.sent == [o.sent[0]];
      CountSnoc(before, o.sent[0]);
    }
  }

  /** In every run, each block handed to the node is the block of one of its cycles, mined. */
  lemma {:induction false} EverySubmissionMined(cfg: Settings, cli: Cli, cycles: seq<Cycle>, x: Submission)
    returns (k: nat)
    requires x in AllSent(cfg, cli, cycles)
    ensures k < |cycles| && CycleOutcome(cfg, cli, cycles[k]).sent == [x] && SubmittedIn(cfg, cli, cycles[k], x)
  {
    hide CycleOutcome, SubmittedIn;
    var n := |cycles| - 1;
    SubmittedBlock(cfg, cli, cycles[n]);
    if x in CycleOutcome(cfg, cli, cycles[n]).sent {
      k := n;
    } else {
      k := EverySubmissionMined(cfg, cli, cycles[..n], x);
    }
  }

  /**
    A run stopped by a block limit m >= 1 has had exactly m blocks accepted by the node, the last in
    its last cycle, however many cycles failed in between, and every block it sent was prepared and
    mined in its cycle; with m = 0 it stops with the first cycle that returns without an error.
  */
  lemma LimitIsExact(cfg: Settings, cli: Cli, cycles: seq<Cycle>, n: nat)
    requires n < |cycles| && cli.maxBlocks.Some?
    requires CycleOutcome(cfg, cli, cycles[n]).result.Ok? && Ends(cfg, cli, cycles, n)
    requires forall k :: 0 <= k < n ==> !Ends(cfg, cli, cycles, k)
    ensures var m, sent := cli.maxBlocks.value, AllSent(cfg, cli, cycles[..n + 1]);
            && (m >= 1 ==> CountAccepted(sent) == m && CycleOutcome(cfg, cli, cycles[n]).result == Ok(true))
            && (m == 0 ==> forall k :: 0 <= k < n ==> CycleOutcome(cfg, cli, cycles[k]).result.Err?)
            && forall x :: x in sent ==> exists k :: 0 <= k <= n && SubmittedIn(cfg, cli, cycles[k], x)
  {
    hide CycleOutcome, CountAccepted, AllSent, SubmittedIn;
    var m, sent := cli.maxBlocks.value, AllSent(cfg, cli, cycles[..n + 1]);
    CycleCounts(cfg, cli, cycles, n);
    if m >= 1 {
      BelowLimit(cfg, cli, cycles, n);
    } else {
      forall k | 0 <= k < n ensures CycleOutcome(cfg, cli, cycles[k]).result.Err? {
        assert !Ends(cfg, cli, cycles, k);
      }
    }
    forall x | x in sent ensures exists k :: 0 <= k <= n && SubmittedIn(cfg, cli, cycles[k], x) {
      var k := EverySubmissionMined(cfg, cli, cycles[..n + 1], x);
      assert SubmittedIn(cfg, cli, cycles[k], x);
    }
  }

  lemma {:induction false} BelowLimit(cfg: Settings, cli: Cli, cycles: seq<Cycle>, n: nat)
    requires cli.maxBlocks.Some? && cli.maxBlocks.value >= 1 && n <= |cycles|
    requires forall k :: 0 <= k < n ==> !Ends(cfg, cli, cycles, k)
    ensures CountAccepted(AllSent(cfg, cli, cycles[..n])) < cli.maxBlocks.value
  {
    hide CycleOutcome, CountAccepted;
    if n == 0 {
      CountOne(Submission(Block(None, []), true));
      assert AllSent(cfg, cli, cycles[..0]) == [];
    } else {
      BelowLimit(cfg, cli, cycles, n - 1);
      CycleCounts(cfg, cli, cycles, n - 1);
      assert !Ends(cfg, cli, cycles, n - 1);
    }
  }
}
