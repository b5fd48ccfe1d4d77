/**
 * Missed signings accumulated over an epoch from overlapping deliveries of blocks
 * (internal/dashboard/klever/monitor.go).
 */
module EpochMisses {
  import opened KleverTypes

  /** Counts per key, and the nonces already scored, of one epoch. */
  datatype Misses = Misses(epoch: nat, counts: map<string, nat>, seen: set<nat>)

  const START := Misses(0, map[], {})

  function CountOf(counts: map<string, nat>, k: string): nat {
    if k in counts then counts[k] else 0
  }

  /** One more miss for each of `keys`. */
  function Bump(counts: map<string, nat>, keys: set<string>): map<string, nat> {
    map k | k in counts.Keys + keys :: CountOf(counts, k) + if k in keys then 1 else 0
  }

  function Enter(m: Misses, epoch: nat): Misses {
    if epoch != m.epoch then Misses(epoch, map[], {}) else m
  }

  predicate Scorable(b: IndexerBlock, epoch: nat) {
    b.epoch == epoch && b.validators != []
  }

  function ScoreBlock(m: Misses, elected: set<string>, b: IndexerBlock): Misses {
    if b.epoch != m.epoch || b.nonce in m.seen || b.validators == [] then m else
    m.(counts := Bump(m.counts, elected - Keys(b.validators)), seen := m.seen + {b.nonce})
  }

  function Score(m: Misses, elected: set<string>, blocks: seq<IndexerBlock>): Misses {
    if blocks == [] then m else
    ScoreBlock(Score(m, elected, blocks[..|blocks| - 1]), elected, blocks[|blocks| - 1])
  }

  /** The effect of one tick that delivers `blocks`. */
  function Track(m: Misses, epoch: nat, elected: set<string>, blocks: seq<IndexerBlock>): Misses {
    Score(Enter(m, epoch), elected, blocks)
  }

  lemma {:induction false} ScoreAppend(m: Misses, elected: set<string>, a: seq<IndexerBlock>, b: seq<IndexerBlock>)
    ensures Score(m, elected, a + b) == Score(Score(m, elected, a), elected, b)
  {
    if b == [] {
      assert a + b == a;
    } else {
      assert (a + b)[..|a + b| - 1] == a + b[..|b| - 1];
      ScoreAppend(m, elected, a, b[..|b| - 1]);
    }
  }

  // ---------------------------------------------------------------- what the counts mean

  datatype Delivery = Delivery(epoch: nat, elected: set<string>, blocks: seq<IndexerBlock>)

  function Run(ds: seq<Delivery>): Misses {
    if ds == [] then START else
    var d := ds[|ds| - 1];
    Track(Run(ds[..|ds| - 1]), d.epoch, d.elected, d.blocks)
  }

  /** A delivered block with the set of validators elected when it was delivered. */
  datatype Item = Item(elected: set<string>, block: IndexerBlock)

  function ItemsOf(elected: set<string>, blocks: seq<IndexerBlock>): seq<Item> {
    seq(|blocks|, i requires 0 <= i < |blocks| => Item(elected, blocks[i]))
  }

  function LastEpoch(ds: seq<Delivery>): nat {
    if ds == [] then 0 else ds[|ds| - 1].epoch
  }

  /** Everything delivered since the current epoch was entered, in order. */
  function Items(ds: seq<Delivery>): seq<Item> {
    if ds == [] then [] else
    var before, d := ds[..|ds| - 1], ds[|ds| - 1];
    (if d.epoch == LastEpoch(before) then Items(before) else []) + ItemsOf(d.elected, d.blocks)
  }

  /** The distinct nonces of signer-bearing blocks of the epoch. */
  function Nonces(items: seq<Item>, epoch: nat): set<nat> {
    set i | 0 <= i < |items| && Scorable(items[i].block, epoch) :: items[i].block.nonce
  }

  /** The first signer-bearing item of the epoch with this nonce. */
  function First(items: seq<Item>, epoch: nat, n: nat): (i: nat)
    requires n in Nonces(items, epoch)
    ensures i < |items| && Scorable(items[i].block, epoch) && items[i].block.nonce == n
    ensures forall j :: 0 <= j < i && Scorable(items[j].block, epoch) ==> items[j].block.nonce != n
  {
    if Scorable(items[0].block, epoch) && items[0].block.nonce == n then 0 else
    assert n in Nonces(items[1..], epoch) by {
      var i :| 0 <= i < |items| && Scorable(items[i].block, epoch) && items[i].block.nonce == n;
      assert items[1..][i - 1] == items[i];
    }
    1 + First(items[1..], epoch, n)
  }

  /** Elected when the block was first delivered, and not among its signers. */
  function MissedNonces(items: seq<Item>, epoch: nat, k: string): set<nat> {
    set n | n in Nonces(items, epoch)
            && var it := items[First(items, epoch, n)]; k in it.elected && k !in Keys(it.block.validators)
  }

  ghost predicate Counts(m: Misses, items: seq<Item>, epoch: nat) {
    && m.epoch == epoch && m.seen == Nonces(items, epoch)
    && forall k :: CountOf(m.counts, k) == |MissedNonces(items, epoch, k)|
  }

  lemma NoncesAppend(items: seq<Item>, it: Item, epoch: nat)
    ensures Nonces(items + [it], epoch)
            == if Scorable(it.block, epoch) then Nonces(items, epoch) + {it.block.nonce} else Nonces(items, epoch)
  {
    var all := items + [it];
    forall n | n in Nonces(items, epoch)
      ensures n in Nonces(all, epoch)
    {
      var i :| 0 <= i < |items| && Scorable(items[i].block, epoch) && items[i].block.nonce == n;
      assert all[i] == items[i];
    }
    assert all[|items|] == it;
  }

  lemma FirstAppend(items: seq<Item>, it: Item, epoch: nat, n: nat)
    requires n in Nonces(items + [it], epoch)
    ensures First(items + [it], epoch, n) == if n in Nonces(items, epoch) then First(items, epoch, n) else |items|
  {
    hide First;
    var all := items + [it];
    var i := First(all, epoch, n);
    if n in Nonces(items, epoch) {
      var j := First(items, epoch, n);
      assert all[j] == items[j];
      assert i < |items|;
      assert all[i] == items[i];
    } else {
      assert forall j :: 0 <= j < |items| ==> items[j] == all[j];
    }
  }

  lemma MissedAppend(items: seq<Item>, it: Item, epoch: nat, k: string)
    ensures MissedNonces(items + [it], epoch, k) ==
            if Scorable(it.block, epoch) && it.block.nonce !in Nonces(items, epoch)
               && k in it.elected && k !in Keys(it.block.validators)
            then MissedNonces(items, epoch, k) + {it.block.nonce} else MissedNonces(items, epoch, k)
  {
    NoncesAppend(items, it, epoch);
    forall n | n in Nonces(items + [it], epoch)
      ensures First(items + [it], epoch, n) == if n in Nonces(items, epoch) then First(items, epoch, n) else |items|
    {
      FirstAppend(items, it, epoch, n);
    }
    hide First, Nonces;
  }

  lemma CountsAppend(m: Misses, items: seq<Item>, it: Item, epoch: nat)
    requires Counts(m, items, epoch)
    ensures Counts(ScoreBlock(m, it.elected, it.block), items + [it], epoch)
  {
    NoncesAppend(items, it, epoch);
    hide First, Nonces;
    forall k
      ensures CountOf(ScoreBlock(m, it.elected, it.block).counts, k) == |MissedNonces(items + [it], epoch, k)|
    {
      MissedAppend(items, it, epoch, k);
      assert CountOf(m.counts, k) == |MissedNonces(items, epoch, k)|;
      assert it.block.nonce !in Nonces(items, epoch) ==> it.block.nonce !in MissedNonces(items, epoch, k);
    }
  }

  lemma {:induction false} CountsScore(m: Misses, items: seq<Item>, epoch: nat, elected: set<string>,
                                       blocks: seq<IndexerBlock>)
    requires Counts(m, items, epoch)
    ensures Counts(Score(m, elected, blocks), items + ItemsOf(elected, blocks), epoch)
  {
    if blocks == [] {
      assert items + ItemsOf(elected, blocks) == items;
    } else {
      var n := |blocks| - 1;
      CountsScore(m, items, epoch, elected, blocks[..n]);
      CountsAppend(Score(m, elected, blocks[..n]), items + ItemsOf(elected, blocks[..n]),
                   Item(elected, blocks[n]), epoch);
      assert items + ItemsOf(elected, blocks[..n]) + [Item(elected, blocks[n])] == items + ItemsOf(elected, blocks);
    }
  }

  /**
   * After any deliveries, a key's count is the number of distinct signer-bearing nonces of the
   * current epoch where it was elected when the nonce was first delivered and is not a signer.
   */
  lemma {:induction false} CountsAreMisses(ds: seq<Delivery>)
    ensures Counts(Run(ds), Items(ds), LastEpoch(ds))
  {
    if ds == [] {
      assert forall k :: MissedNonces([], 0, k) == {};
    } else {
      var before, d := ds[..|ds| - 1], ds[|ds| - 1];
      CountsAreMisses(before);
      assert forall k :: MissedNonces([], d.epoch, k) == {};
      var since := if d.epoch == LastEpoch(before) then Items(before) else [];
      CountsScore(Enter(Run(before), d.epoch), since, d.epoch, d.elected, d.blocks);
    }
  }

  /** The elected set never changed, and every delivery of a block carried the same signers. */
  ghost predicate Consistent(items: seq<Item>, epoch: nat, elected: set<string>, signers: map<nat, set<string>>) {
    forall i :: 0 <= i < |items| && Scorable(items[i].block, epoch) ==>
      && items[i].elected == elected
      && items[i].block.nonce in signers && Keys(items[i].block.validators) == signers[items[i].block.nonce]
  }

  /**
   * With a constant elected set and consistent block data, it is the direct count over the set of
   * delivered signer-bearing blocks, whatever the overlap, order or number of deliveries.
   */
  lemma CountsAreDirect(ds: seq<Delivery>, elected: set<string>, signers: map<nat, set<string>>, k: string)
    requires Consistent(Items(ds), LastEpoch(ds), elected, signers)
    ensures CountOf(Run(ds).counts, k) ==
            |set n | n in Nonces(Items(ds), LastEpoch(ds)) && k in elected && n in signers && k !in signers[n]|
  {
    CountsAreMisses(ds);
    MissedDirectly(Items(ds), LastEpoch(ds), elected, signers, k);
  }

  lemma MissedDirectly(items: seq<Item>, epoch: nat, elected: set<string>, signers: map<nat, set<string>>, k: string)
    requires Consistent(items, epoch, elected, signers)
    ensures MissedNonces(items, epoch, k)
            == (set n | n in Nonces(items, epoch) && k in elected && n in signers && k !in signers[n])
  {
    hide First, Nonces;
    forall n | n in Nonces(items, epoch)
      ensures var it := items[First(items, epoch, n)];
              it.elected == elected && n in signers && Keys(it.block.validators) == signers[n]
    {
      var i := First(items, epoch, n);
      assert items[i].block.nonce == n;
    }
  }
}
