/**
 * The monthly election history: one credit per elected managed validator and epoch, persisted
 * across restarts (internal/dashboard/klever/monitor.go).
 */
module Elections {
  import opened KleverTypes
  import opened BlockWindow

  type Bucket = map<string, nat>

  datatype ElectionHistory = ElectionHistory(currentMonth: string, lastEpoch: nat, history: map<string, Bucket>)

  const EMPTY := ElectionHistory("", 0, map[])

  /** The union of the consensus groups of an epoch's blocks in the window. */
  function Elected(have: Window, epoch: nat): set<string> {
    set n, s | n in have && have[n].epoch == epoch && have[n].hasSigners && s in have[n].signers :: s
  }

  function CountIn(b: Bucket, k: string): nat {
    if k in b then b[k] else 0
  }

  function BucketOf(h: map<string, Bucket>, month: string): Bucket {
    if month in h then h[month] else map[]
  }

  /** One more election for each of `keys`. */
  function Credit(b: Bucket, keys: set<string>): Bucket {
    map k | k in b.Keys + keys :: CountIn(b, k) + if k in keys then 1 else 0
  }

  /** Whether an epoch is counted: it is new, and consensus data for it has arrived. */
  predicate Counted(h: ElectionHistory, epoch: nat, have: Window) {
    epoch > h.lastEpoch && Elected(have, epoch) != {}
  }

  function Update(h: ElectionHistory, month: string, epoch: nat, have: Window,
                  managed: seq<ManagedNode>): ElectionHistory {
    if Counted(h, epoch, have) then
      ElectionHistory(month, epoch,
        h.history[month := Credit(BucketOf(h.history, month), ManagedKeys(managed) * Elected(have, epoch))])
    else h.(currentMonth := month)
  }

  // ---------------------------------------------------------------- whole runs with restarts

  /** A counted epoch: the month of the tick that counted it, its window and the nodes managed then. */
  datatype Count = Count(month: string, epoch: nat, have: Window, managed: seq<ManagedNode>)

  /** The history in memory and the one last stored, each with the epochs counted into it. */
  datatype World = World(now: ElectionHistory, log: seq<Count>, stored: ElectionHistory, storedLog: seq<Count>)

  datatype Event =
    | Tick(month: string, epoch: nat, have: Window, managed: seq<ManagedNode>, written: bool)
    | Restart

  function Step(w: World, e: Event): World {
    match e
    case Restart => w.(now := w.stored, log := w.storedLog)
    case Tick(month, epoch, have, managed, written) =>
      var h := Update(w.now, month, epoch, have, managed);
      var log := if Counted(w.now, epoch, have) then
          w.log + [Count(month, epoch, have, managed)]
        else
          w.log;
      if h != w.now && written then World(h, log, h, log) else w.(now := h, log := log)
  }

  function Run(events: seq<Event>): World {
    if events == [] then World(EMPTY, [], EMPTY, []) else Step(Run(events[..|events| - 1]), events[|events| - 1])
  }

  // ---------------------------------------------------------------- totals over all months

  ghost function SumOver(h: map<string, Bucket>, months: set<string>, k: string): nat
    requires months <= h.Keys
  {
    if months == {} then 0 else
    var m :| m in months;
    CountIn(h[m], k) + SumOver(h, months - {m}, k)
  }

  lemma {:induction false} SumPick(h: map<string, Bucket>, months: set<string>, k: string, m: string)
    requires months <= h.Keys && m in months
    ensures SumOver(h, months, k) == CountIn(h[m], k) + SumOver(h, months - {m}, k)
    decreases |months|
  {
    var p :| p in months && SumOver(h, months, k) == CountIn(h[p], k) + SumOver(h, months - {p}, k);
    if p != m {
      SumPick(h, months - {p}, k, m);
      SumPick(h, months - {m}, k, p);
      assert months - {p} - {m} == months - {m} - {p};
    }
  }

  lemma {:induction false} SumSame(g: map<string, Bucket>, h: map<string, Bucket>, months: set<string>, k: string)
    requires months <= g.Keys && months <= h.Keys && forall m :: m in months ==> g[m] == h[m]
    ensures SumOver(g, months, k) == SumOver(h, months, k)
    decreases |months|
  {
    if months != {} {
      var m :| m in months;
      SumPick(g, months, k, m);
      SumPick(h, months, k, m);
      SumSame(g, h, months - {m}, k);
    }
  }

  /** A key's elections over all months. */
  ghost function Total(h: map<string, Bucket>, k: string): nat {
    SumOver(h, h.Keys, k)
  }

  lemma TotalUpdate(h: map<string, Bucket>, month: string, b: Bucket, k: string)
    ensures Total(h[month := b], k) + CountIn(BucketOf(h, month), k) == Total(h, k) + CountIn(b, k)
  {
    var g := h[month := b];
    SumPick(g, g.Keys, k, month);
    SumSame(g, h, h.Keys - {month}, k);
    assert g.Keys - {month} == h.Keys - {month};
    if month in h {
      SumPick(h, h.Keys, k, month);
    } else {
      assert h.Keys - {month} == h.Keys;
    }
  }

  // ---------------------------------------------------------------- what the history says

  /** Some block of the epoch in the window has this signer. */
  ghost predicate SignedIn(have: Window, epoch: nat, k: string) {
    exists n :: n in have && have[n].epoch == epoch && have[n].hasSigners && k in have[n].signers
  }

  /** A managed node with this key, which signed a block of the counted epoch. */
  ghost predicate Credits(c: Count, k: string) {
    && k != "" && (exists i :: 0 <= i < |c.managed| && NormalizeBLS(c.managed[i].bls) == k)
    && SignedIn(c.have, c.epoch, k)
  }

  /** The counted epochs in which a key was managed and elected. */
  ghost function Credited(log: seq<Count>, k: string): set<nat> {
    set i | 0 <= i < |log| && Credits(log[i], k) :: log[i].epoch
  }

  /** Those of them that were counted in this month. */
  ghost function CreditedIn(log: seq<Count>, month: string, k: string): set<nat> {
    set i | 0 <= i < |log| && log[i].month == month && Credits(log[i], k) :: log[i].epoch
  }

  ghost predicate Matches(h: ElectionHistory, log: seq<Count>) {
    && (forall i, j :: 0 <= i < j < |log| ==> log[i].epoch < log[j].epoch)
    && h.lastEpoch == (if log == [] then 0 else log[|log| - 1].epoch)
    && (forall k :: Total(h.history, k) == |Credited(log, k)|)
    && (forall month, k :: CountIn(BucketOf(h.history, month), k) == |CreditedIn(log, month, k)|)
  }

  lemma CreditsIff(c: Count, k: string)
    ensures k in ManagedKeys(c.managed) * Elected(c.have, c.epoch) <==> Credits(c, k)
  {
    hide NormalizeBLS;
    if k in ManagedKeys(c.managed) {
      var n :| n in c.managed && NormalizeBLS(n.bls) == k;
      var i :| 0 <= i < |c.managed| && c.managed[i] == n;
    }
  }

  lemma CreditIn(b: Bucket, keys: set<string>, k: string)
    ensures CountIn(Credit(b, keys), k) == CountIn(b, k) + if k in keys then 1 else 0
  {
  }

  /** The history after counting `c`. */
  function WithCount(h: map<string, Bucket>, c: Count): map<string, Bucket> {
    h[c.month := Credit(BucketOf(h, c.month), ManagedKeys(c.managed) * Elected(c.have, c.epoch))]
  }

  lemma TotalCounted(h: map<string, Bucket>, log: seq<Count>, c: Count, k: string)
    requires Total(h, k) == |Credited(log, k)| && forall i :: 0 <= i < |log| ==> log[i].epoch < c.epoch
    ensures Total(WithCount(h, c), k) == |Credited(log + [c], k)|
  {
    var keys := ManagedKeys(c.managed) * Elected(c.have, c.epoch);
    CreditsIff(c, k);
    CreditIn(BucketOf(h, c.month), keys, k);
    TotalUpdate(h, c.month, Credit(BucketOf(h, c.month), keys), k);
    CreditedAppend(log, c, k);
    hide ManagedKeys, Elected, Credits, Credit, Total, Credited;
  }

  lemma MonthCounted(h: map<string, Bucket>, log: seq<Count>, c: Count, month: string, k: string)
    requires CountIn(BucketOf(h, month), k) == |CreditedIn(log, month, k)|
    requires forall i :: 0 <= i < |log| ==> log[i].epoch < c.epoch
    ensures CountIn(BucketOf(WithCount(h, c), month), k) == |CreditedIn(log + [c], month, k)|
  {
    CreditsIff(c, k);
    CreditIn(BucketOf(h, c.month), ManagedKeys(c.managed) * Elected(c.have, c.epoch), k);
    CreditedInAppend(log, c, month, k);
    hide ManagedKeys, Elected, Credits, Credit, CreditedIn;
  }

  lemma CountsMatch(h: map<string, Bucket>, log: seq<Count>, c: Count)
    requires forall k :: Total(h, k) == |Credited(log, k)|
    requires forall month, k :: CountIn(BucketOf(h, month), k) == |CreditedIn(log, month, k)|
    requires forall i :: 0 <= i < |log| ==> log[i].epoch < c.epoch
    ensures forall k :: Total(WithCount(h, c), k) == |Credited(log + [c], k)|
    ensures forall month, k :: CountIn(BucketOf(WithCount(h, c), month), k) == |CreditedIn(log + [c], month, k)|
  {
    hide *;
    forall k
      ensures Total(WithCount(h, c), k) == |Credited(log + [c], k)|
    {
      TotalCounted(h, log, c, k);
    }
    forall month, k
      ensures CountIn(BucketOf(WithCount(h, c), month), k) == |CreditedIn(log + [c], month, k)|
    {
      MonthCounted(h, log, c, month, k);
    }
  }

  lemma MatchesUpdate(h: ElectionHistory, log: seq<Count>, month: string, epoch: nat, have: Window,
                      managed: seq<ManagedNode>)
    requires Matches(h, log) && Counted(h, epoch, have)
    ensures Matches(Update(h, month, epoch, have, managed), log + [Count(month, epoch, have, managed)])
  {
    var c := Count(month, epoch, have, managed);
    assert Update(h, month, epoch, have, managed) == ElectionHistory(month, epoch, WithCount(h.history, c));
    assert forall i :: 0 <= i < |log| ==> log[i].epoch < epoch;
    hide WithCount, Update, Counted, Total, Credited, CreditedIn, BucketOf, CountIn;
    CountsMatch(h.history, log, c);
  }

  lemma CreditedAppend(log: seq<Count>, c: Count, k: string)
    requires forall i :: 0 <= i < |log| ==> log[i].epoch < c.epoch
    ensures |Credited(log + [c], k)| == |Credited(log, k)| + if Credits(c, k) then 1 else 0
  {
    hide Credits;
    var all := log + [c];
    forall e | e in Credited(log, k)
      ensures e in Credited(all, k)
    {
      var i :| 0 <= i < |log| && Credits(log[i], k) && log[i].epoch == e;
      assert all[i] == log[i];
    }
    assert all[|log|] == c;
    assert Credited(all, k) == if Credits(c, k) then Credited(log, k) + {c.epoch} else Credited(log, k);
  }

  lemma CreditedInAppend(log: seq<Count>, c: Count, month: string, k: string)
    requires forall i :: 0 <= i < |log| ==> log[i].epoch < c.epoch
    ensures |CreditedIn(log + [c], month, k)| ==
            |CreditedIn(log, month, k)| + if month == c.month && Credits(c, k) then 1 else 0
  {
    hide Credits;
    var all, more := log + [c], month == c.month && Credits(c, k);
    forall e | e in CreditedIn(log, month, k)
      ensures e in CreditedIn(all, month, k)
    {
      var i :| 0 <= i < |log| && log[i].month == month && Credits(log[i], k) && log[i].epoch == e;
      assert all[i] == log[i];
    }
    assert all[|log|] == c;
    assert CreditedIn(all, month, k) ==
           if more then CreditedIn(log, month, k) + {c.epoch} else CreditedIn(log, month, k);
  }

  ghost predicate Inv(w: World) {
    Matches(w.now, w.log) && Matches(w.stored, w.storedLog) && w.storedLog <= w.log
    && w.stored.lastEpoch <= w.now.lastEpoch
  }

  lemma InvStep(w: World, e: Event)
    requires Inv(w)
    ensures Inv(Step(w, e))
  {
    if e.Tick? && Counted(w.now, e.epoch, e.have) {
      MatchesUpdate(w.now, w.log, e.month, e.epoch, e.have, e.managed);
    }
    hide Counted, ManagedKeys, Elected;
  }

  lemma {:induction false} InvRun(events: seq<Event>)
    ensures Inv(Run(events))
  {
    if events == [] {
      assert forall k :: Credited([], k) == {};
    } else {
      InvRun(events[..|events| - 1]);
      InvStep(Run(events[..|events| - 1]), events[|events| - 1]);
    }
  }

  /**
   * Over every run of ticks, failed writes and restarts from the last stored history, a key's
   * elections over all months are exactly the distinct counted epochs in which it was managed and
   * in the union of the epoch's signer sets in the window: no epoch is counted twice, also not for
   * several node records with one key.
   */
  lemma CreditedOncePerEpoch(events: seq<Event>, k: string)
    ensures var w := Run(events);
            && Total(w.now.history, k) == |Credited(w.log, k)|
            && (forall i, j :: 0 <= i < j < |w.log| ==> w.log[i].epoch < w.log[j].epoch)
  {
    InvRun(events);
  }

  /**
   * Over every such run, a key's elections of a month are the distinct epochs counted in a tick of
   * that month in which a managed node had it and it signed a block of the epoch in the window.
   */
  lemma CreditedInItsMonth(events: seq<Event>, month: string, k: string)
    ensures CountIn(BucketOf(Run(events).now.history, month), k) == |CreditedIn(Run(events).log, month, k)|
  {
    InvRun(events);
  }

  /** What is shown after a tick: the elections of the month it fell in. */
  lemma ShownAfterTick(events: seq<Event>, e: Event, k: string)
    requires e.Tick?
    ensures var w := Run(events + [e]);
            && w.now.currentMonth == e.month
            && CountIn(BucketOf(w.now.history, w.now.currentMonth), k) == |CreditedIn(w.log, e.month, k)|
  {
    assert (events + [e])[..|events|] == events;
    CreditedInItsMonth(events + [e], e.month, k);
  }

  /**
   * Over every such run, a tick counts its epoch, in its month, exactly if the epoch is later than all
   * counted before and some block of it in the window has a signer.
   */
  lemma TickCountsIff(events: seq<Event>, e: Event)
    requires e.Tick?
    ensures var log := Run(events).log;
            var later := e.epoch > 0 && forall i :: 0 <= i < |log| ==> log[i].epoch < e.epoch;
            Run(events + [e]).log ==
            if later && exists k :: SignedIn(e.have, e.epoch, k) then log + [Count(e.month, e.epoch, e.have, e.managed)]
            else log
  {
    InvRun(events);
    hide *;
    StepCountsIff(Run(events), e);
    RunOneMore(events, e);
  }

  lemma RunOneMore(events: seq<Event>, e: Event)
    ensures Run(events + [e]) == Step(Run(events), e)
  {
    assert (events + [e])[..|events|] == events;
    hide Step;
  }

  lemma StepCountsIff(w: World, e: Event)
    requires Inv(w) && e.Tick?
    ensures var later := e.epoch > 0 && forall i :: 0 <= i < |w.log| ==> w.log[i].epoch < e.epoch;
            Step(w, e).log ==
            if later && exists k :: SignedIn(e.have, e.epoch, k)
            then w.log + [Count(e.month, e.epoch, e.have, e.managed)] else w.log
  {
    ElectedNobody(e.have, e.epoch);
    assert Matches(w.now, w.log);
    LaterIff(w.now, w.log, e.epoch);
    hide Inv, Matches, Elected, SignedIn, Update, ManagedKeys;
  }

  lemma LaterIff(h: ElectionHistory, log: seq<Count>, epoch: nat)
    requires Matches(h, log)
    ensures epoch > h.lastEpoch <==> epoch > 0 && forall i :: 0 <= i < |log| ==> log[i].epoch < epoch
  {
    hide Total, Credited, CreditedIn;
  }

  lemma ElectedNobody(have: Window, epoch: nat)
    ensures Elected(have, epoch) == {} <==> forall k :: !SignedIn(have, epoch, k)
  {
    assert forall k :: k in Elected(have, epoch) <==> SignedIn(have, epoch, k);
  }

  /** The stored LastEpoch never falls, nor does the one in memory except by a restart. */
  lemma LastEpochMonotone(events: seq<Event>, e: Event)
    ensures var w, v := Run(events), Run(events + [e]);
            && w.stored.lastEpoch <= v.stored.lastEpoch
            && (e.Tick? ==> w.now.lastEpoch <= v.now.lastEpoch)
  {
    assert (events + [e])[..|events|] == events;
    InvRun(events);
  }

  ghost predicate AllWritten(events: seq<Event>) {
    forall i :: 0 <= i < |events| && events[i].Tick? ==> events[i].written
  }

  /** While writes succeed, memory and store agree after every tick, so a restart loses nothing. */
  lemma {:induction false} RestartLosesNothing(events: seq<Event>)
    requires AllWritten(events)
    ensures var w := Run(events); w.now == w.stored && Step(w, Restart).now == w.now
  {
    if events != [] {
      RestartLosesNothing(events[..|events| - 1]);
    }
  }
}
