/**
  The template cache of applications/tari_merge_mining_proxy/src/block_template_data.rs: templates
  by merge-mining hash, each with the time it was saved, evicted twenty minutes later.
*/
module TemplateRepository {
  import opened Bytes
  import opened Wrappers

  type Hash = seq<byte>

  /** An instant, in seconds; clocks may go back. */
  type Time = int

  const RETENTION: int := 20 * 60

  /** A Tari block as the node hands it out: its header's proof of work may still be empty. */
  datatype TariHeader = TariHeader(height: nat, powData: Option<seq<byte>>, rest: seq<byte>)
  datatype TariBlock = TariBlock(header: Option<TariHeader>, body: seq<byte>)
  datatype MinerData = MinerData(reward: nat, targetDifficulty: nat, totalFees: nat)

  datatype BlockTemplateData = BlockTemplateData(
    moneroSeed: seq<byte>, tariBlock: TariBlock, minerData: MinerData, moneroDifficulty: nat, tariDifficulty: nat)

  datatype Item = Item(data: BlockTemplateData, datetime: Time)
  type Blocks = map<Hash, Item>

  // ---------------------------------------------------------------------------------------------
  // The cache as its history of operations

  datatype Operation =
    | Save(hash: Hash, data: BlockTemplateData, at: Time)
    | Remove(hash: Hash)
    | RemoveOutdated(threshold: Time)

  function Fresh(blocks: Blocks, threshold: Time): Blocks {
    map h | h in blocks && blocks[h].datetime >= threshold :: blocks[h]
  }

  function Apply(blocks: Blocks, op: Operation): Blocks {
    match op
    case Save(hash, data, at) => blocks[hash := Item(data, at)]
    case Remove(hash) => blocks - {hash}
    case RemoveOutdated(threshold) => Fresh(blocks, threshold)
  }

  /** An item lasts for 1200 seconds: an eviction then still keeps it, and one any later drops it. */
  lemma TwentyMinutes(blocks: Blocks, h: Hash, now: Time)
    ensures var kept := Apply(blocks, RemoveOutdated(now - RETENTION));
            && (h in kept <==> h in blocks && now <= blocks[h].datetime + 1200)
            && (h in kept ==> kept[h] == blocks[h])
  {
  }

  function Replay(history: seq<Operation>): Blocks {
    if history == [] then map[] else Apply(Replay(history[..|history| - 1]), history[|history| - 1])
  }

  /** An operation that ends what a save of h at the given time stored. */
  predicate Ends(op: Operation, h: Hash, at: Time) {
    match op
    case Save(hash, _, _) => hash == h
    case Remove(hash) => hash == h
    case RemoveOutdated(threshold) => at < threshold
  }

  /** Operation i saved d under h, and nothing since has ended it. */
  predicate Live(history: seq<Operation>, h: Hash, d: BlockTemplateData, i: int) {
    && 0 <= i < |history| && history[i].Save? && history[i].hash == h && history[i].data == d
    && forall j :: i < j < |history| ==> !Ends(history[j], h, history[i].at)
  }

  ghost predicate Stored(history: seq<Operation>, h: Hash, item: Item) {
    exists i :: Live(history, h, item.data, i) && history[i].at == item.datetime
  }

  lemma LiveSnoc(history: seq<Operation>, op: Operation, h: Hash, d: BlockTemplateData, i: int)
    requires 0 <= i < |history|
    ensures Live(history + [op], h, d, i) <==> Live(history, h, d, i) && !Ends(op, h, history[i].at)
  {
    var longer := history + [op];
    if Live(longer, h, d, i) {
      assert longer[|history|] == op;
      forall j | i < j < |history| ensures !Ends(history[j], h, history[i].at) {
        assert longer[j] == history[j];
      }
    }
  }

  lemma StoredSnoc(history: seq<Operation>, op: Operation, h: Hash, item: Item)
    ensures Stored(history + [op], h, item) <==>
            op == Save(h, item.data, item.datetime) || (Stored(history, h, item) && !Ends(op, h, item.datetime))
  {
    var longer, n := history + [op], |history|;
    if i :| Live(longer, h, item.data, i) && longer[i].at == item.datetime {
      if i < n {
        LiveSnoc(history, op, h, item.data, i);
      }
    }
    if op == Save(h, item.data, item.datetime) {
      assert Live(longer, h, item.data, n);
    }
    if Stored(history, h, item) && !Ends(op, h, item.datetime) {
      var i :| Live(history, h, item.data, i) && history[i].at == item.datetime;
      LiveSnoc(history, op, h, item.data, i);
    }
  }

  /** The cache holds an item under h exactly when the history last stored it there and never ended it. */
  lemma {:induction false} ReplayIsStored(history: seq<Operation>, h: Hash, item: Item)
    ensures h in Replay(history) && Replay(history)[h] == item <==> Stored(history, h, item)
  {
    hide Stored;
    if history == [] {
      assert !Stored([], h, item) by { NothingStored(h, item); }
    } else {
      var n := |history| - 1;
      ReplayIsStored(history[..n], h, item);
      StoredSnoc(history[..n], history[n], h, item);
      assert history == history[..n] + [history[n]];
      var blocks := Replay(history[..n]);
      assert Replay(history) == Apply(blocks, history[n]);
    }
  }

  lemma NothingStored(h: Hash, item: Item)
    ensures !Stored([], h, item)
  {
  }

  // ---------------------------------------------------------------------------------------------
  // The repository

  class BlockTemplateRepository {
    var blocks: Blocks
    ghost var history: seq<Operation>

    ghost predicate Valid()
      reads this
    {
      blocks == Replay(history)
    }

    constructor ()
      ensures Valid() && history == [] && blocks == map[]
    {
      blocks := map[];
      history := [];
    }

    /** What a lookup finds is what was last saved and not removed or outdated since. */
    method Get(hash: Hash) returns (r: Option<BlockTemplateData>)
      requires Valid()
      ensures r == if hash in blocks then Some(blocks[hash].data) else None
      ensures forall d :: r == Some(d) <==> exists i :: Live(history, hash, d, i)
    {
      r := if hash in blocks then Some(blocks[hash].data) else None;
      forall d ensures r == Some(d) <==> exists i :: Live(history, hash, d, i) {
        GetIsLive(history, hash, d);
      }
    }

    method Save(hash: Hash, data: BlockTemplateData, now: Time)
      requires Valid()
      modifies this
      ensures Valid() && history == old(history) + [Operation.Save(hash, data, now)]
      ensures blocks == old(blocks)[hash := Item(data, now)]
    {
      blocks := blocks[hash := Item(data, now)];
      history := history + [Operation.Save(hash, data, now)];
      assert history[..|history| - 1] == old(history);
    }

    /** Eviction keeps every fresh item as it is and drops the others. */
    method RemoveOutdated(now: Time)
      requires Valid()
      modifies this
      ensures Valid() && history == old(history) + [Operation.RemoveOutdated(now - RETENTION)]
      ensures blocks == Fresh(old(blocks), now - RETENTION)
      ensures forall h :: h in blocks <==> h in old(blocks) && now <= old(blocks)[h].datetime + 1200
    {
      var threshold := now - RETENTION;
      blocks := map h | h in blocks && blocks[h].datetime >= threshold :: blocks[h];
      history := history + [Operation.RemoveOutdated(threshold)];
      assert history[..|history| - 1] == old(history);
    }

    method Remove(hash: Hash) returns (r: Option<Item>)
      requires Valid()
      modifies this
      ensures Valid() && history == old(history) + [Operation.Remove(hash)]
      ensures r == if hash in old(blocks) then Some(old(blocks)[hash]) else None
      ensures blocks == old(blocks) - {hash}
    {
      r := if hash in blocks then Some(blocks[hash]) else None;
      blocks := blocks - {hash};
      history := history + [Operation.Remove(hash)];
      assert history[..|history| - 1] == old(history);
    }
  }

  /** The same for the data alone, as a lookup returns it. */
  lemma GetIsLive(history: seq<Operation>, h: Hash, d: BlockTemplateData)
    ensures (h in Replay(history) && Replay(history)[h].data == d) <==> exists i :: Live(history, h, d, i)
  {
    if h in Replay(history) && Replay(history)[h].data == d {
      ReplayIsStored(history, h, Replay(history)[h]);
    }
    if i :| Live(history, h, d, i) {
      ReplayIsStored(history, h, Item(d, history[i].at));
    }
  }

  /** At most one save of a hash is live, so a lookup has one answer. */
  lemma LiveUnique(history: seq<Operation>, h: Hash, d: BlockTemplateData, d': BlockTemplateData, i: int, j: int)
    requires Live(history, h, d, i) && Live(history, h, d', j)
    ensures i == j && d == d'
  {
  }
}
