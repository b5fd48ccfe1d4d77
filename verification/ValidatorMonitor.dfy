/**
 * The validator monitor: one tick refills the block window, scores missed signings, counts
 * elections and renders the timelines (internal/dashboard/klever/monitor.go).
 */
module ValidatorMonitor {
  import opened Prelude
  import opened KleverTypes
  import opened BlockWindow
  import opened EpochMisses
  import E = Elections

  /** What the dashboard shows for one managed validator. */
  datatype ValidatorView = ValidatorView(
    bls: string, state: string, electionsMonth: nat, missed: nat, timeline: seq<(nat, Status)>)

  /** The validator list by normalized key; entries without a key are dropped, later ones win. */
  function ByKey(vals: seq<RawValidator>): map<string, string> {
    if vals == [] then map[] else
    var n := |vals| - 1;
    if vals[n].blsPublicKey == "" then ByKey(vals[..n])
    else ByKey(vals[..n])[NormalizeBLS(vals[n].blsPublicKey) := vals[n].list]
  }

  function StateOf(validators: map<string, string>, bls: string): string {
    if bls in validators then validators[bls] else "unknown"
  }

  /** The managed keys the validator list reports as elected. */
  function ElectedManaged(validators: map<string, string>, managed: seq<ManagedNode>): set<string> {
    set k | k in ManagedKeys(managed) && StateOf(validators, k) == "elected"
  }

  /** The last entry of the list for this key. */
  ghost predicate LastListed(vals: seq<RawValidator>, j: nat, k: string) {
    && j < |vals| && vals[j].blsPublicKey != "" && NormalizeBLS(vals[j].blsPublicKey) == k
    && forall i :: j < i < |vals| ==> vals[i].blsPublicKey == "" || NormalizeBLS(vals[i].blsPublicKey) != k
  }

  /** The state shown for a key is that of its last entry in the list, or "unknown" when it has none. */
  lemma {:induction false} ListedState(vals: seq<RawValidator>, k: string)
    ensures k in ByKey(vals) <==> exists j: nat :: LastListed(vals, j, k)
    ensures forall j: nat :: LastListed(vals, j, k) ==> StateOf(ByKey(vals), k) == vals[j].list
    ensures (forall j: nat :: !LastListed(vals, j, k)) ==> StateOf(ByKey(vals), k) == "unknown"
  {
    hide NormalizeBLS;
    if vals != [] {
      var n := |vals| - 1;
      ListedState(vals[..n], k);
      if vals[n].blsPublicKey != "" && NormalizeBLS(vals[n].blsPublicKey) == k {
        assert LastListed(vals, n, k);
      } else {
        assert forall j: nat :: LastListed(vals, j, k) <==> LastListed(vals[..n], j, k);
      }
    }
  }

  /** The keys scored for misses: those of a managed node whose last entry in the list says elected. */
  lemma ElectedManagedIff(vals: seq<RawValidator>, managed: seq<ManagedNode>, k: string)
    ensures k in ElectedManaged(ByKey(vals), managed) <==>
            && k != "" && (exists i :: 0 <= i < |managed| && NormalizeBLS(managed[i].bls) == k)
            && exists j: nat :: LastListed(vals, j, k) && vals[j].list == "elected"
  {
    hide NormalizeBLS, ByKey;
    ListedState(vals, k);
    if k in ManagedKeys(managed) {
      var n :| n in managed && NormalizeBLS(n.bls) == k;
      var i :| 0 <= i < |managed| && managed[i] == n;
    }
    hide LastListed;
  }

  lemma OneMoreNode(managed: seq<ManagedNode>, i: nat)
    requires i < |managed|
    ensures ManagedKeys(managed[..i + 1]) == ManagedKeys(managed[..i]) + ({NormalizeBLS(managed[i].bls)} - {""})
  {
    hide NormalizeBLS;
    assert managed[..i + 1] == managed[..i] + [managed[i]];
  }

  lemma CreditNobody(bucket: E.Bucket)
    ensures E.Credit(bucket, {}) == bucket && ManagedKeys([]) == {}
  {
  }

  lemma OneMoreCredit(bucket: E.Bucket, keys: set<string>, k: string)
    requires k !in keys
    ensures E.Credit(bucket, keys)[k := E.CountIn(E.Credit(bucket, keys), k) + 1] == E.Credit(bucket, keys + {k})
  {
  }

  /** The validator list is fetched at least every so many ticks. */
  const STATS_EVERY: nat := 5

  class Monitor {
    const window: nat
    const maxPerTick: nat := 8
    const tracksElections: bool

    var have: Window
    var validators: map<string, string>
    var elect: Option<E.ElectionHistory>
    var stored: E.ElectionHistory
    var misses: Misses
    var headNonce: nat
    var epoch: nat
    var ticks: nat
    var nextTickStatRefresh: bool
    var failed: bool

    /** The election steps that led to the history at hand, and the blocks delivered to the miss count. */
    ghost var past: seq<E.Event>
    ghost var deliveries: seq<Delivery>

    /** The tick that fetched the validator list at hand, and its epoch. */
    ghost var listTick: nat
    ghost var listEpoch: nat

    /** The window never holds more than `window` blocks, all within its range below the head. */
    ghost predicate Valid()
      reads this
    {
      && window >= 1 && |have| <= window
      && (forall n :: n in have ==> WindowStart(headNonce, window) <= n <= headNonce)
      && (elect.Some? ==> tracksElections)
      && misses == EpochMisses.Run(deliveries)
    }

    /** The validator list was fetched in this epoch, and in the last tick whose number is a multiple of 5 or later. */
    ghost predicate ListFresh()
      reads this
    {
      ticks > 0 ==> listEpoch == epoch && (ticks - 1) / 5 * 5 <= listTick < ticks
    }

    /** The histories in memory and in the store are those that a run of Elections ends with. */
    ghost predicate FollowsRun()
      reads this
    {
      Loaded() == Some(E.Run(past).now) && stored == E.Run(past).stored
    }

    /** `stored` is what an earlier process left in the key-value store, `past` how it came to that. */
    constructor (window: nat, tracksElections: bool, stored: E.ElectionHistory, ghost past: seq<E.Event>)
      ensures Valid() && have == map[] && elect == None && misses == START && ListFresh()
      ensures this.tracksElections == tracksElections && this.stored == stored
      ensures tracksElections && E.Run(past).stored == stored ==> FollowsRun()
    {
      this.window := if window < 1 then 100 else window;
      this.tracksElections, this.stored := tracksElections, stored;
      have, validators, elect, misses := map[], map[], None, START;
      headNonce, epoch, ticks, nextTickStatRefresh, failed := 0, 0, 0, false, false;
      this.past, deliveries := past + [E.Restart], [];
      assert (past + [E.Restart])[..|past|] == past;
    }

    /** The history a tick starts from. */
    function Loaded(): Option<E.ElectionHistory>
      reads this
    {
      if elect.None? && tracksElections then Some(stored) else elect
    }

    /** Due in the first tick of an epoch, until it is counted and once more, and at least every five ticks. */
    function RefreshDue(epoch': nat): (due: bool)
      reads this
      ensures epoch' != epoch || ticks % 5 == 0 || nextTickStatRefresh ==> due
      ensures Loaded().Some? && epoch' > Loaded().value.lastEpoch ==> due
    {
      || ticks % STATS_EVERY == 0 || |validators| == 0 || nextTickStatRefresh
      || epoch' != epoch || (Loaded().Some? && epoch' > Loaded().value.lastEpoch)
    }

    /** From `h` in memory and `s` in the store, the histories are what one step of Elections makes of them. */
    ghost predicate IsElectionStep(h: E.ElectionHistory, s: E.ElectionHistory, e: E.Event)
      requires elect.Some?
      reads this
    {
      forall log, storedLog ::
        var w := E.Step(E.World(h, log, s, storedLog), e);
        elect.value == w.now && stored == w.stored
    }

    method EnsureElectionsLoaded()
      modifies this`elect
      ensures elect == old(Loaded())
      ensures forall e :: RefreshDue(e) == old(RefreshDue(e))
    {
      if elect.Some? || !tracksElections {
        return;
      }
      elect := Some(stored);
    }

    /** Adds the signers of the epoch's blocks in the window. */
    method CollectElected(epoch: nat) returns (elected: set<string>)
      ensures elected == E.Elected(have, epoch)
    {
      elected := {};
      var nonces := have.Keys;
      while nonces != {}
        invariant nonces <= have.Keys
        invariant elected == set n, s | n in have && n !in nonces && have[n].epoch == epoch && have[n].hasSigners
                                        && s in have[n].signers :: s
      {
        var n :| n in nonces;
        nonces := nonces - {n};
        if have[n].epoch == epoch && have[n].hasSigners {
          elected := elected + have[n].signers;
        }
      }
    }

    /** Counts every elected key of the managed nodes once. */
    method CreditManaged(bucket: E.Bucket, managed: seq<ManagedNode>, elected: set<string>) returns (credited: E.Bucket)
      ensures credited == E.Credit(bucket, ManagedKeys(managed) * elected)
    {
      hide NormalizeBLS, ManagedKeys, E.Credit;
      credited := bucket;
      var seen: set<string> := {};
      assert ManagedKeys(managed[..0]) == {} && E.Credit(bucket, {}) == bucket by {
        CreditNobody(bucket);
      }
      assert seen * elected == {};
      for i := 0 to |managed|
        invariant seen == ManagedKeys(managed[..i])
        invariant credited == E.Credit(bucket, seen * elected)
      {
        OneMoreNode(managed, i);
        var bls := NormalizeBLS(managed[i].bls);
        if bls == "" || bls in seen {
          continue;
        }
        ghost var before := seen;
        seen := seen + {bls};
        if bls in elected {
          OneMoreCredit(bucket, before * elected, bls);
          credited := credited[bls := E.CountIn(credited, bls) + 1];
          assert seen * elected == before * elected + {bls};
        } else {
          assert seen * elected == before * elected;
        }
      }
      assert managed[..|managed|] == managed;
    }

    method UpdateElections(month: string, epoch: nat, managed: seq<ManagedNode>) returns (dirty: bool)
      requires elect.Some?
      modifies this`elect
      ensures elect == Some(E.Update(old(elect).value, month, epoch, have, managed))
      ensures dirty <==> elect != old(elect)
    {
      var h := elect.value;
      dirty := false;
      if h.currentMonth != month {
        h := h.(currentMonth := month);
        dirty := true;
      }
      elect := Some(h);
      if epoch <= h.lastEpoch {
        return;
      }
      var elected := CollectElected(epoch);
      if elected == {} {
        return;
      }
      var bucket := CreditManaged(E.BucketOf(h.history, month), managed, elected);
      elect := Some(E.ElectionHistory(month, epoch, h.history[month := bucket]));
      dirty := true;
    }

    method CollectElectedManaged(managed: seq<ManagedNode>) returns (elected: set<string>)
      ensures elected == ElectedManaged(validators, managed)
    {
      elected := {};
      for i := 0 to |managed|
        invariant elected == ElectedManaged(validators, managed[..i])
      {
        assert managed[..i + 1] == managed[..i] + [managed[i]];
        var bls := NormalizeBLS(managed[i].bls);
        if bls != "" && bls in validators && validators[bls] == "elected" {
          elected := elected + {bls};
        }
      }
      assert managed[..|managed|] == managed;
    }

    /** Adds a miss for every key of `absent`. */
    method AddMisses(counts: map<string, nat>, absent: set<string>) returns (bumped: map<string, nat>)
      ensures bumped == Bump(counts, absent)
    {
      bumped := counts;
      var keys := absent;
      while keys != {}
        invariant keys <= absent
        invariant bumped == Bump(counts, absent - keys)
      {
        var k :| k in keys;
        bumped := bumped[k := CountOf(bumped, k) + 1];
        assert absent - (keys - {k}) == (absent - keys) + {k};
        keys := keys - {k};
      }
      assert absent - {} == absent;
    }

    method ScoreBlocks(elected: set<string>, blocks: seq<IndexerBlock>)
      modifies this`misses
      ensures misses == Score(old(misses), elected, blocks)
    {
      for i := 0 to |blocks|
        invariant misses == Score(old(misses), elected, blocks[..i])
      {
        assert blocks[..i + 1][..i] == blocks[..i];
        var b := blocks[i];
        if b.epoch != misses.epoch || b.nonce in misses.seen || |b.validators| == 0 {
          continue;
        }
        var counts := AddMisses(misses.counts, elected - Keys(b.validators));
        misses := Misses(misses.epoch, counts, misses.seen + {b.nonce});
      }
      assert blocks[..|blocks|] == blocks;
    }

    method TrackEpochMisses(epoch: nat, blocks1: seq<IndexerBlock>, blocks2: seq<IndexerBlock>,
                            managed: seq<ManagedNode>)
      requires misses == EpochMisses.Run(deliveries)
      modifies this`misses, this`deliveries
      ensures misses == EpochMisses.Run(deliveries)
      ensures misses == Track(old(misses), epoch, ElectedManaged(validators, managed), blocks1 + blocks2)
      ensures deliveries ==
              old(deliveries) + [Delivery(epoch, ElectedManaged(validators, managed), blocks1 + blocks2)]
    {
      deliveries := deliveries + [Delivery(epoch, ElectedManaged(validators, managed), blocks1 + blocks2)];
      if epoch != misses.epoch {
        misses := Misses(epoch, map[], {});
      }
      var elected := CollectElectedManaged(managed);
      ScoreAppend(misses, elected, blocks1, blocks2);
      ScoreBlocks(elected, blocks1);
      ScoreBlocks(elected, blocks2);
      assert deliveries[..|old(deliveries)|] == old(deliveries);
    }

    /** What is shown for one key at the current state. */
    ghost predicate Shows(v: ValidatorView, head: nat)
      reads this
    {
      var first := head + 1 - |v.timeline|;
      && v.state == StateOf(validators, v.bls)
      && v.electionsMonth == (match elect
                              case Some(e) => E.CountIn(E.BucketOf(e.history, e.currentMonth), v.bls)
                              case None => 0)
      && v.missed == CountOf(misses.counts, v.bls)
      && |v.timeline| == (if head < window then head else window)
      && forall i :: 0 <= i < |v.timeline| ==>
           v.timeline[i] == (first + i, CellStatus(have, first + i, v.bls, v.state == "elected", epoch,
                                                     CanMarkSkipped(window, maxPerTick)))
    }

    /** One view per distinct managed key. */
    method Build(head: nat, managed: seq<ManagedNode>) returns (views: seq<ValidatorView>)
      requires head < MAX_UINT64 && misses == EpochMisses.Run(deliveries) && LastEpoch(deliveries) == epoch
      ensures forall i :: 0 <= i < |views| ==> Shows(views[i], head)
      ensures forall v :: v in views ==> v.missed == |MissedNonces(Items(deliveries), epoch, v.bls)|
      ensures elect.Some? && FollowsRun() ==> forall v :: v in views ==>
                v.electionsMonth == |E.CreditedIn(E.Run(past).log, elect.value.currentMonth, v.bls)|
      ensures (set v | v in views :: v.bls) == ManagedKeys(managed)
      ensures forall i, j :: 0 <= i < j < |views| ==> views[i].bls != views[j].bls
    {
      hide Shows, NormalizeBLS;
      views := [];
      var seen: set<string> := {};
      for i := 0 to |managed|
        invariant seen == ManagedKeys(managed[..i])
        invariant forall j :: 0 <= j < |views| ==> Shows(views[j], head) && views[j].bls in seen
        invariant (set v | v in views :: v.bls) == seen
        invariant forall j, k :: 0 <= j < k < |views| ==> views[j].bls != views[k].bls
      {
        assert managed[..i + 1] == managed[..i] + [managed[i]];
        var bls := NormalizeBLS(managed[i].bls);
        if bls == "" || bls in seen {
          continue;
        }
        seen := seen + {bls};
        var view := BuildOne(bls, head);
        views := views + [view];
      }
      assert managed[..|managed|] == managed;
      ShownMisses(views, head);
      if elect.Some? && FollowsRun() {
        ShownElections(views, head);
      }
    }

    method BuildOne(bls: string, head: nat) returns (view: ValidatorView)
      requires head < MAX_UINT64
      ensures Shows(view, head) && view.bls == bls
    {
      hide CellStatus;
      var state := StateOf(validators, bls);
      var month := 0;
      if elect.Some? {
        month := E.CountIn(E.BucketOf(elect.value.history, elect.value.currentMonth), bls);
      }
      var cells := Timeline(have, WindowStart(head, window), head, window, maxPerTick, bls, state == "elected", epoch);
      view := ValidatorView(bls, state, month, CountOf(misses.counts, bls), cells);
    }

    method SetValidators(vals: seq<RawValidator>)
      modifies this`validators
      ensures validators == ByKey(vals)
    {
      validators := map[];
      for i := 0 to |vals|
        invariant validators == ByKey(vals[..i])
      {
        assert vals[..i + 1][..i] == vals[..i];
        if vals[i].blsPublicKey != "" {
          validators := validators[NormalizeBLS(vals[i].blsPublicKey) := vals[i].list];
        }
      }
      assert vals[..|vals|] == vals;
    }

    /** Refills `have` around the head of the newest page; returns what was fetched beyond that page. */
    method RefillWindow(newest: seq<IndexerBlock>, pages: Pages) returns (backfill: seq<IndexerBlock>)
      requires newest != [] && newest[0].nonce < MAX_UINT64
      modifies this`have
      ensures have == Refill(old(have), newest, pages, window, maxPerTick)
      ensures var head := newest[0].nonce;
              var start := WindowStart(head, window);
              backfill == BackfillOf(Pruned(Merge(old(have), newest, start, head), start, head), pages, window,
                                     maxPerTick, head)
    {
      var head := newest[0].nonce;
      var desiredStart := 0;
      if head >= window {
        desiredStart := head - window + 1;
      }
      have := MergeBlocks(have, newest, desiredStart, head);
      have := Prune(have, desiredStart, head);
      var missing := CountMissing(have, desiredStart, head);
      backfill := [];
      NoneMissing(have, desiredStart, head);
      if missing > 0 {
        backfill := Backfill(pages, window, maxPerTick, desiredStart);
      }
      have := MergeBlocks(have, backfill, desiredStart, head);
      have := Prune(have, desiredStart, head);
    }

    /**
     * One poll. `pages` answers block list requests, `fetched` the validator list request. A newest
     * page that fails, is empty or starts at nonce 0 leaves everything but the error as it was; an
     * empty validator list does not replace the one at hand.
     */
    method Tick(pages: Pages, fetched: Option<seq<RawValidator>>, managed: seq<ManagedNode>, month: string,
                written: bool)
      returns (views: Option<seq<ValidatorView>>)
      requires Valid()
      requires pages(1).Some? && pages(1).value != [] ==> pages(1).value[0].nonce < MAX_UINT64
      modifies this
      ensures Valid()
      ensures failed <==> views.None?
      ensures failed <==> pages(1).None? || pages(1).value == [] || pages(1).value[0].nonce == 0
      ensures failed ==>
                && have == old(have) && validators == old(validators) && elect == old(elect) && stored == old(stored)
                && misses == old(misses) && headNonce == old(headNonce) && epoch == old(epoch) && ticks == old(ticks)
                && nextTickStatRefresh == old(nextTickStatRefresh)
      ensures !failed ==>
                var newest := pages(1).value;
                var head, start := newest[0].nonce, WindowStart(newest[0].nonce, window);
                && headNonce == head && epoch == newest[0].epoch && ticks == old(ticks) + 1
                && have == Refill(old(have), newest, pages, window, maxPerTick)
                && validators == (if fetched.Some? && fetched.value != [] && old(RefreshDue(newest[0].epoch)) then
                                    ByKey(fetched.value)
                                  else old(validators))
                && misses == Track(old(misses), epoch, ElectedManaged(validators, managed),
                     newest + BackfillOf(Pruned(Merge(old(have), newest, start, head), start, head), pages, window,
                                         maxPerTick, head))
                && (match old(Loaded())
                    case None => elect == None && stored == old(stored)
                    case Some(h) =>
                      elect.Some? && IsElectionStep(h, old(stored), E.Tick(month, epoch, have, managed, written)))
                && nextTickStatRefresh == (elect.Some? && elect.value.lastEpoch > old(Loaded()).value.lastEpoch)
                && (forall i :: 0 <= i < |views.value| ==> Shows(views.value[i], head))
                && (set v | v in views.value :: v.bls) == ManagedKeys(managed)
      ensures !failed && fetched.Some? && fetched.value != [] ==>
                && (old(ListFresh()) ==> ListFresh())
                && (old(nextTickStatRefresh) || (old(Loaded()).Some? && epoch > old(Loaded()).value.lastEpoch) ==>
                      validators == ByKey(fetched.value))
      ensures !failed ==> forall v :: v in views.value ==> v.missed == |MissedNonces(Items(deliveries), epoch, v.bls)|
      ensures !failed && old(FollowsRun()) ==>
                && FollowsRun()
                && forall v :: v in views.value ==>
                     v.electionsMonth == |E.CreditedIn(E.Run(past).log, month, v.bls)|
    {
      hide E.Update, Refill, Track, ManagedKeys, NormalizeBLS, BackfillOf, Shows, ByKey, ElectedManaged, Merge, Pruned;
      hide E.Run, EpochMisses.Run, MissedNonces, Items, E.CreditedIn, E.Step, IsElectionStep, WindowStart;
      hide LastEpoch, RefreshDue, ListFresh;
      var answer := pages(1);
      if answer.None? || answer.value == [] || answer.value[0].nonce == 0 {
        failed := true;
        return None;
      }
      var newest := answer.value;
      Receive(newest, pages, fetched, managed);
      CountElections(month, managed, written);
      var built := Build(newest[0].nonce, managed);
      views := Some(built);
    }

    /** The misses shown are those of the epoch's delivered blocks. */
    lemma ShownMisses(views: seq<ValidatorView>, head: nat)
      requires misses == EpochMisses.Run(deliveries) && LastEpoch(deliveries) == epoch
      requires forall i :: 0 <= i < |views| ==> Shows(views[i], head)
      ensures forall v :: v in views ==> v.missed == |MissedNonces(Items(deliveries), epoch, v.bls)|
    {
      CountsAreMisses(deliveries);
      hide EpochMisses.Run, MissedNonces, Items;
    }

    /** The elections shown are those of the month, over the whole run. */
    lemma ShownElections(views: seq<ValidatorView>, head: nat)
      requires elect.Some? && FollowsRun()
      requires forall i :: 0 <= i < |views| ==> Shows(views[i], head)
      ensures forall v :: v in views ==>
                v.electionsMonth == |E.CreditedIn(E.Run(past).log, elect.value.currentMonth, v.bls)|
    {
      forall v | v in views
        ensures v.electionsMonth == |E.CreditedIn(E.Run(past).log, elect.value.currentMonth, v.bls)|
      {
        E.CreditedInItsMonth(past, elect.value.currentMonth, v.bls);
      }
    }

    /** What a tick does with the answers, up to the elections. */
    method Receive(newest: seq<IndexerBlock>, pages: Pages, fetched: Option<seq<RawValidator>>,
                   managed: seq<ManagedNode>)
      requires Valid() && newest != [] && newest[0].nonce < MAX_UINT64
      modifies this`elect, this`have, this`validators, this`headNonce, this`epoch, this`ticks, this`failed, this`misses
      modifies this`deliveries, this`listTick, this`listEpoch
      ensures Valid() && !failed && elect == old(Loaded()) && FollowsRun() == old(FollowsRun())
      ensures headNonce == newest[0].nonce && epoch == newest[0].epoch && ticks == old(ticks) + 1
      ensures LastEpoch(deliveries) == epoch
      ensures have == Refill(old(have), newest, pages, window, maxPerTick)
      ensures validators == if fetched.Some? && fetched.value != [] && old(RefreshDue(newest[0].epoch)) then
                              ByKey(fetched.value)
                            else old(validators)
      ensures var head := newest[0].nonce;
              var start := WindowStart(head, window);
              misses == Track(old(misses), epoch, ElectedManaged(validators, managed),
                newest + BackfillOf(Pruned(Merge(old(have), newest, start, head), start, head), pages, window,
                                    maxPerTick, head))
      ensures fetched.Some? && fetched.value != [] && old(ListFresh()) ==> ListFresh()
    {
      hide Refill, Track, BackfillOf, ElectedManaged, ByKey, EpochMisses.Run, Merge, Pruned, RefreshDue, WindowStart;
      EnsureElectionsLoaded();
      var refreshStats := RefreshDue(newest[0].epoch);
      Absorb(newest, pages, if refreshStats then fetched else None, managed);
    }

    /** Blocks, validator list and missed signings. */
    method Absorb(newest: seq<IndexerBlock>, pages: Pages, vals: Option<seq<RawValidator>>, managed: seq<ManagedNode>)
      requires Valid() && newest != [] && newest[0].nonce < MAX_UINT64
      modifies this`have, this`validators, this`headNonce, this`epoch, this`ticks, this`failed, this`misses
      modifies this`deliveries, this`listTick, this`listEpoch
      ensures Valid() && !failed
      ensures headNonce == newest[0].nonce && epoch == newest[0].epoch && ticks == old(ticks) + 1
      ensures LastEpoch(deliveries) == epoch
      ensures if vals.Some? && vals.value != [] then listTick == old(ticks) && listEpoch == epoch
              else listTick == old(listTick) && listEpoch == old(listEpoch)
      ensures have == Refill(old(have), newest, pages, window, maxPerTick)
      ensures validators == if vals.Some? && vals.value != [] then ByKey(vals.value) else old(validators)
      ensures var head := newest[0].nonce;
              var start := WindowStart(head, window);
              misses == Track(old(misses), epoch, ElectedManaged(validators, managed),
                newest + BackfillOf(Pruned(Merge(old(have), newest, start, head), start, head), pages, window,
                                    maxPerTick, head))
    {
      hide Refill, Track, BackfillOf, ElectedManaged, ByKey, EpochMisses.Run, Merge, Pruned;
      WindowBounded(have, newest, pages, window, maxPerTick);
      var backfill := RefillWindow(newest, pages);
      if vals.Some? && vals.value != [] {
        SetValidators(vals.value);
        listTick, listEpoch := ticks, newest[0].epoch;
      }
      headNonce, epoch, ticks, failed := newest[0].nonce, newest[0].epoch, ticks + 1, false;
      TrackEpochMisses(epoch, newest, backfill, managed);
    }

    /** Updates the loaded history and stores it when it changed; a newly counted epoch asks for fresh statistics. */
    method CountElections(month: string, managed: seq<ManagedNode>, written: bool)
      modifies this`elect, this`stored, this`nextTickStatRefresh, this`past
      ensures match old(elect)
              case None => elect == None && stored == old(stored)
              case Some(h) =>
                elect.Some? && IsElectionStep(h, old(stored), E.Tick(month, epoch, have, managed, written))
      ensures ListFresh() == old(ListFresh())
      ensures old(elect.Some? && FollowsRun()) ==> FollowsRun() && elect.value.currentMonth == month
      ensures elect.Some? ==> past == old(past) + [E.Tick(month, epoch, have, managed, written)]
      ensures nextTickStatRefresh == (elect.Some? && elect.value.lastEpoch > old(elect).value.lastEpoch)
    {
      nextTickStatRefresh := false;
      if elect.None? {
        return;
      }
      var prevLastEpoch := elect.value.lastEpoch;
      var dirty := UpdateElections(month, epoch, managed);
      if elect.value.lastEpoch > prevLastEpoch {
        nextTickStatRefresh := true;
      }
      if dirty && written {
        stored := elect.value;
      }
      past := past + [E.Tick(month, epoch, have, managed, written)];
      assert past[..|old(past)|] == old(past);
    }
  }

  lemma NoneMissing(have: Window, start: nat, head: nat)
    ensures |Missing(have, start, head)| == 0 <==> forall n :: start <= n <= head ==> n in have
  {
    if |Missing(have, start, head)| == 0 {
      assert forall n: nat :: start <= n <= head && n !in have ==> n in Missing(have, start, head);
    }
  }
}
