/**
 * Signed agent connects: the message an agent signs, the skew window around its timestamp and the
 * pruned cache of seen nonces (internal/crypto/wsauth.go, internal/dashboard/ws/agent_handler.go).
 * Instants are nanoseconds since the Unix epoch.
 */
module AgentAuth {
  import opened Prelude
  import opened Decimal

  const SECOND: int := 1_000_000_000
  const MAX_SKEW: int := 300 * 1_000_000_000

  const INT64_LIMIT: int := 0x8000_0000_0000_0000
  const UNIX_TO_INTERNAL: int := 62_135_596_800

  // ---------------------------------------------------------------- the signed message

  const SCHEME: string := "kvh-agent-ws-v2|"

  function AgentAuthMessage(serverID: string, ts: int, nonce: string): string {
    SCHEME + Claim(serverID, ts, nonce)
  }

  /** What follows the scheme tag. */
  function Claim(serverID: string, ts: int, nonce: string): string {
    serverID + "|" + (FormatInt(ts) + "|" + nonce)
  }

  lemma SplitAtBar(a: string, x: string, b: string, y: string)
    requires '|' !in a && '|' !in b && a + "|" + x == b + "|" + y
    ensures a == b && x == y
  {
    var s := a + "|" + x;
    assert s[|a|] == '|' && forall i :: 0 <= i < |a| ==> s[i] != '|';
    assert s == b + "|" + y && s[|b|] == '|' && forall i :: 0 <= i < |b| ==> s[i] != '|';
    assert |a| == |b|;
    assert a == s[..|a|] == b && x == s[|a| + 1..] == y;
  }

  /** The signed bytes determine server, timestamp and nonce when server IDs contain no '|'. */
  lemma MessageInjective(s1: string, ts1: int, n1: string, s2: string, ts2: int, n2: string)
    requires '|' !in s1 && '|' !in s2
    ensures AgentAuthMessage(s1, ts1, n1) == AgentAuthMessage(s2, ts2, n2) <==> s1 == s2 && ts1 == ts2 && n1 == n2
  {
    hide FormatInt, ScanInt;
    var m1, m2 := AgentAuthMessage(s1, ts1, n1), AgentAuthMessage(s2, ts2, n2);
    assert m1[|SCHEME|..] == Claim(s1, ts1, n1) && m2[|SCHEME|..] == Claim(s2, ts2, n2);
    if m1 == m2 {
      FormatAvoids(ts1, '|');
      FormatAvoids(ts2, '|');
      SplitAtBar(s1, FormatInt(ts1) + "|" + n1, s2, FormatInt(ts2) + "|" + n2);
      SplitAtBar(FormatInt(ts1), n1, FormatInt(ts2), n2);
      ScanFormat(ts1);
      ScanFormat(ts2);
    }
  }

  /** With '|' in a server ID, two different triples can share one message. */
  lemma MessageAmbiguousWithBar(nonce: string)
    ensures AgentAuthMessage("a|1", 2, nonce) == AgentAuthMessage("a", 1, "2|" + nonce)
  {
    assert FormatInt(1) == "1" && FormatInt(2) == "2";
    assert Claim("a|1", 2, nonce) == "a|1|2|" + nonce == Claim("a", 1, "2|" + nonce);
  }

  // ---------------------------------------------------------------- the skew window

  /** A sum of int64 values, which wraps. */
  function Wrap64(x: int): int {
    (x + INT64_LIMIT) % 0x1_0000_0000_0000_0000 - INT64_LIMIT
  }

  /** time.Unix(ts, 0) */
  function Instant(ts: int): int {
    (Wrap64(ts + UNIX_TO_INTERNAL) - UNIX_TO_INTERNAL) * SECOND
  }

  /** Time.Sub saturates at the ends of the int64 range. */
  function Sub(t: int, u: int): int {
    if t - u >= INT64_LIMIT then INT64_LIMIT - 1 else if t - u < -INT64_LIMIT then -INT64_LIMIT else t - u
  }

  /** `skew = -skew` for a negative difference; the smallest int64 is its own negation. */
  function Skew(now: int, ts: int): int {
    var d := Sub(now, Instant(ts));
    if d < 0 then Wrap64(-d) else d
  }

  predicate InWindow(now: int, ts: int) {
    Skew(now, ts) <= MAX_SKEW
  }

  /** Within five minutes, or so far ahead of the clock that the difference saturates. */
  lemma InWindowIff(now: int, ts: int)
    ensures InWindow(now, ts) <==>
            (-MAX_SKEW <= now - Instant(ts) <= MAX_SKEW) || Instant(ts) - now >= INT64_LIMIT
  {
    hide Instant;
  }

  datatype AuthError = InvalidNonce | SignatureMismatch | OutsideWindow

  /** `verify(key, message, signature)` includes decoding the signature. */
  function VerifyAgentAuth(verify: (Bytes, string, string) -> bool, pub: Bytes, serverID: string,
                           ts: int, nonce: string, sig: string, now: int): (r: Option<AuthError>)
    ensures r.None? <==> 1 <= |nonce| <= 64 && |pub| == 32 && verify(pub, AgentAuthMessage(serverID, ts, nonce), sig)
                         && InWindow(now, ts)
  {
    if nonce == "" || |nonce| > 64 then Some(InvalidNonce) else
    if |pub| != 32 || !verify(pub, AgentAuthMessage(serverID, ts, nonce), sig) then Some(SignatureMismatch) else
    if Skew(now, ts) > MAX_SKEW then Some(OutsideWindow) else
    None
  }

  // ---------------------------------------------------------------- the nonce cache

  /** Seen keys with their expiry. */
  type Cache = map<string, int>

  function CacheKey(serverID: string, nonce: string): string {
    serverID + "|" + nonce
  }

  function Pruned(seen: Cache, now: int): Cache {
    map k | k in seen && now <= seen[k] :: seen[k]
  }

  /** The cache after `rememberNonce`, entries living for `ttl`. */
  function Remember(seen: Cache, key: string, now: int, ttl: int): Cache {
    var kept := Pruned(seen, now);
    if key in kept then kept else kept[key := now + ttl]
  }

  function IsFresh(seen: Cache, key: string, now: int): bool {
    key !in Pruned(seen, now)
  }

  // ---------------------------------------------------------------- connects

  datatype Verdict = Accepted | AcceptedUnsigned | Rejected

  /**
   * One WebSocket upgrade, with what the handler reads while serving it. `signedOnly` is None when
   * the server row cannot be read; `pub` is None when no Ed25519 certificate is stored.
   */
  datatype Attempt = Attempt(
    serverID: string,
    sig: string,
    ts: Option<int>,
    nonce: string,
    pub: Option<Bytes>,
    now: int,
    readable: bool,
    requireSigned: bool,
    markStored: bool)

  datatype State = State(seen: Cache, signed: set<string>)

  predicate Verified(verify: (Bytes, string, string) -> bool, a: Attempt) {
    && a.ts.Some? && a.pub.Some?
    && VerifyAgentAuth(verify, a.pub.value, a.serverID, a.ts.value, a.nonce, a.sig, a.now).None?
  }

  function Decide(verify: (Bytes, string, string) -> bool, s: State, a: Attempt): Verdict {
    if !a.readable then Rejected
    else if a.sig == "" then
      if a.serverID in s.signed || a.requireSigned then Rejected else AcceptedUnsigned
    else if Verified(verify, a) && IsFresh(s.seen, CacheKey(a.serverID, a.nonce), a.now) then Accepted
    else Rejected
  }

  function Next(verify: (Bytes, string, string) -> bool, ttl: int, s: State, a: Attempt): State {
    if a.readable && a.sig != "" && Verified(verify, a) then
      State(
        Remember(s.seen, CacheKey(a.serverID, a.nonce), a.now, ttl),
        if Decide(verify, s, a) == Accepted && a.markStored then s.signed + {a.serverID} else s.signed)
    else s
  }

  class AgentHandler {
    const verify: (Bytes, string, string) -> bool
    var seenNonces: Cache
    var signedServers: set<string>

    /** The servers marked when the process started, and the connects it has served since. */
    ghost const marked: set<string>
    ghost var served: seq<Event>

    ghost function View(): State
      reads this
    {
      State(seenNonces, signedServers)
    }

    ghost predicate Valid()
      reads this
    {
      View() == Run(verify, 2 * MAX_SKEW, State(map[], marked), served)
    }

    /** A new process: it finds the marks in the servers table and starts with an empty cache. */
    constructor (verify: (Bytes, string, string) -> bool, signedServers: set<string>)
      ensures Valid() && View() == State(map[], signedServers) && served == [] && this.verify == verify
      ensures forall before: State, at :: before.signed == signedServers ==>
              View() == Step(verify, 0, before, Restart(at))
    {
      this.verify, this.seenNonces, this.signedServers := verify, map[], signedServers;
      marked, served := signedServers, [];
    }

    method RememberNonce(serverID: string, nonce: string, now: int) returns (unseen: bool)
      modifies this`seenNonces
      ensures seenNonces == Remember(old(seenNonces), CacheKey(serverID, nonce), now, 2 * MAX_SKEW)
      ensures unseen == IsFresh(old(seenNonces), CacheKey(serverID, nonce), now)
    {
      var keys := seenNonces.Keys;
      while keys != {}
        invariant keys <= seenNonces.Keys <= old(seenNonces).Keys
        invariant forall k :: k in seenNonces ==> seenNonces[k] == old(seenNonces)[k]
        invariant forall k :: k in old(seenNonces) && k !in keys ==> (k in seenNonces <==> now <= old(seenNonces)[k])
      {
        var k :| k in keys;
        keys := keys - {k};
        if now > seenNonces[k] {
          seenNonces := seenNonces - {k};
        }
      }
      assert seenNonces == Pruned(old(seenNonces), now);
      var key := serverID + "|" + nonce;
      if key in seenNonces {
        return false;
      }
      seenNonces := seenNonces[key := now + 2 * MAX_SKEW];
      return true;
    }

    /**
     * While clock readings are ordered, a signed connect is accepted exactly if it verifies and this
     * process has not accepted its nonce for its server within ten minutes.
     */
    method AuthenticateAgent(a: Attempt) returns (v: Verdict)
      requires Valid()
      modifies this
      ensures Valid() && served == old(served) + [Connect(a)]
      ensures v == Decide(verify, old(View()), a)
      ensures View() == Step(verify, 2 * MAX_SKEW, old(View()), Connect(a))
      ensures a.readable && a.sig != "" && NoBars(served) && ClockFrom(Time(served[0]), {}, served) ==>
                (v == Accepted <==>
                 Verified(verify, a) &&
                 !UsedBefore(verify, 2 * MAX_SKEW, State(map[], marked), served, |old(served)|, a.serverID, a.nonce))
    {
      v := Authenticate(a);
      served := served + [Connect(a)];
      assert served[..|old(served)|] == old(served);
      if a.readable && a.sig != "" && NoBars(served) && ClockFrom(Time(served[0]), {}, served) {
        AcceptedIff(verify, 2 * MAX_SKEW, Time(served[0]), {}, State(map[], marked), served, |old(served)|);
      }
    }

    method Authenticate(a: Attempt) returns (v: Verdict)
      modifies this`seenNonces, this`signedServers
      ensures v == Decide(verify, old(View()), a)
      ensures View() == Step(verify, 2 * MAX_SKEW, old(View()), Connect(a))
    {
      if !a.readable {
        return Rejected;
      }
      var signedOnly := a.serverID in signedServers;
      if a.sig == "" {
        if signedOnly || a.requireSigned {
          return Rejected;
        }
        return AcceptedUnsigned;
      }
      if a.ts.None? || a.pub.None? {
        return Rejected;
      }
      var failure := VerifyAgentAuth(verify, a.pub.value, a.serverID, a.ts.value, a.nonce, a.sig, a.now);
      if failure.Some? {
        return Rejected;
      }
      var unseen := RememberNonce(a.serverID, a.nonce, a.now);
      if !unseen {
        return Rejected;
      }
      if !signedOnly && a.markStored {
        signedServers := signedServers + {a.serverID};
      }
      return Accepted;
    }
  }

  // ---------------------------------------------------------------- whole runs

  /** An upgrade attempt, or a restart of the dashboard: the cache is in memory, the signed marks are not. */
  datatype Event = Connect(attempt: Attempt) | Restart(at: int)

  function Time(e: Event): int {
    match e
    case Connect(a) => a.now
    case Restart(at) => at
  }

  function Step(verify: (Bytes, string, string) -> bool, ttl: int, s: State, e: Event): State {
    match e
    case Connect(a) => Next(verify, ttl, s, a)
    case Restart(_) => s.(seen := map[])
  }

  function Run(verify: (Bytes, string, string) -> bool, ttl: int, s: State, run: seq<Event>): State {
    if run == [] then s else Step(verify, ttl, Run(verify, ttl, s, run[..|run| - 1]), run[|run| - 1])
  }

  /** Event `i` of a run is an attempt that is accepted as a signed connect for this server, timestamp and nonce. */
  ghost predicate AcceptsAt(verify: (Bytes, string, string) -> bool, ttl: int, s: State, run: seq<Event>, i: nat,
                            serverID: string, ts: int, nonce: string)
    requires i < |run|
  {
    && run[i].Connect?
    && Decide(verify, Run(verify, ttl, s, run[..i]), run[i].attempt) == Accepted
    && run[i].attempt.serverID == serverID && run[i].attempt.ts == Some(ts) && run[i].attempt.nonce == nonce
  }

  /**
   * The clock does not go back between events and starts no earlier than `start`; restarts happen
   * at some of `restarts`.
   */
  ghost predicate ClockFrom(start: int, restarts: set<int>, run: seq<Event>) {
    && (forall i :: 0 <= i < |run| ==> start <= Time(run[i]) && (run[i].Restart? ==> run[i].at in restarts))
    && (forall i, j :: 0 <= i < j < |run| ==> Time(run[i]) <= Time(run[j]))
  }

  /** No run accepts the same signed triple twice. */
  ghost predicate AtMostOnce(verify: (Bytes, string, string) -> bool, ttl: int, start: int, restarts: set<int>,
                             serverID: string, ts: int, nonce: string)
  {
    forall s, run, i: nat, j: nat ::
      ClockFrom(start, restarts, run) && i < j < |run| && AcceptsAt(verify, ttl, s, run, i, serverID, ts, nonce) ==>
      !AcceptsAt(verify, ttl, s, run, j, serverID, ts, nonce)
  }

  ghost predicate NoRestart(run: seq<Event>, i: nat, j: nat) {
    forall k :: i < k < j && k < |run| ==> run[k].Connect?
  }

  /** After an accepted connect, its key stays cached until its lifetime has passed or the dashboard restarts. */
  lemma {:induction false} CachedUntilExpiry(verify: (Bytes, string, string) -> bool, ttl: int, start: int,
                                             restarts: set<int>, s: State, run: seq<Event>, i: nat, j: nat,
                                             serverID: string, ts: int, nonce: string)
    requires ttl >= 0 && ClockFrom(start, restarts, run) && i < j < |run| && NoRestart(run, i, j)
    requires AcceptsAt(verify, ttl, s, run, i, serverID, ts, nonce)
    ensures var seen := Run(verify, ttl, s, run[..j]).seen;
            var key := CacheKey(serverID, nonce);
            (key in seen && seen[key] >= Time(run[i]) + ttl) || Time(run[j]) > Time(run[i]) + ttl
    decreases j
  {
    var key, before := CacheKey(serverID, nonce), Run(verify, ttl, s, run[..j - 1]);
    assert run[..j][..j - 1] == run[..j - 1];
    assert run[j - 1].Connect? && Time(run[j - 1]) <= Time(run[j]);
    assert Run(verify, ttl, s, run[..j]).seen == Next(verify, ttl, before, run[j - 1].attempt).seen;
    hide Run, CacheKey, Next;
    if j == i + 1 {
      AcceptedIsCached(verify, ttl, before, run[i].attempt);
    } else {
      CachedUntilExpiry(verify, ttl, start, restarts, s, run, i, j - 1, serverID, ts, nonce);
      if key in before.seen && before.seen[key] >= Time(run[i]) + ttl {
        StaysCached(verify, ttl, before, run[j - 1].attempt, key);
      }
    }
  }

  lemma AcceptedIsCached(verify: (Bytes, string, string) -> bool, ttl: int, s: State, a: Attempt)
    requires Decide(verify, s, a) == Accepted
    ensures var seen := Next(verify, ttl, s, a).seen;
            var key := CacheKey(a.serverID, a.nonce);
            key in seen && seen[key] == a.now + ttl
  {
    hide VerifyAgentAuth, CacheKey;
  }

  /** An entry that has not expired by the time of an attempt survives it unchanged. */
  lemma StaysCached(verify: (Bytes, string, string) -> bool, ttl: int, s: State, a: Attempt, key: string)
    requires key in s.seen
    ensures var seen := Next(verify, ttl, s, a).seen;
            (key in seen && seen[key] == s.seen[key]) || a.now > s.seen[key]
  {
    hide Verified, CacheKey;
  }

  lemma Accepting(verify: (Bytes, string, string) -> bool, s: State, a: Attempt)
    requires Decide(verify, s, a) == Accepted
    ensures a.ts.Some? && InWindow(a.now, a.ts.value) && CacheKey(a.serverID, a.nonce) !in Pruned(s.seen, a.now)
  {
  }

  /** Both attempts of an accepted pair are in the skew window of their timestamp. */
  lemma BothInWindow(verify: (Bytes, string, string) -> bool, ttl: int, start: int, restarts: set<int>, s: State,
                     run: seq<Event>, i: nat, serverID: string, ts: int, nonce: string)
    requires Instant(ts) - start < INT64_LIMIT && ClockFrom(start, restarts, run) && i < |run|
    requires AcceptsAt(verify, ttl, s, run, i, serverID, ts, nonce)
    ensures -MAX_SKEW <= Time(run[i]) - Instant(ts) <= MAX_SKEW
  {
    hide InWindow, Instant, Verified;
    Accepting(verify, Run(verify, ttl, s, run[..i]), run[i].attempt);
    InWindowIff(Time(run[i]), ts);
  }

  /** Without a restart in between, a timestamp the difference to which never saturates is accepted at most once. */
  lemma ReplayRefused(verify: (Bytes, string, string) -> bool, ttl: int, start: int, restarts: set<int>, s: State,
                      run: seq<Event>, i: nat, j: nat, serverID: string, ts: int, nonce: string)
    requires ttl >= 2 * MAX_SKEW && Instant(ts) - start < INT64_LIMIT
    requires ClockFrom(start, restarts, run) && i < j < |run| && NoRestart(run, i, j)
    requires AcceptsAt(verify, ttl, s, run, i, serverID, ts, nonce)
    ensures !AcceptsAt(verify, ttl, s, run, j, serverID, ts, nonce)
  {
    hide InWindow, Instant, Verified;
    CachedUntilExpiry(verify, ttl, start, restarts, s, run, i, j, serverID, ts, nonce);
    BothInWindow(verify, ttl, start, restarts, s, run, i, serverID, ts, nonce);
    if AcceptsAt(verify, ttl, s, run, j, serverID, ts, nonce) {
      BothInWindow(verify, ttl, start, restarts, s, run, j, serverID, ts, nonce);
      Accepting(verify, Run(verify, ttl, s, run[..j]), run[j].attempt);
    }
  }

  /** An accepted replay, without saturation, has a restart between it and the end of the skew window. */
  lemma RestartBetween(verify: (Bytes, string, string) -> bool, ttl: int, start: int, restarts: set<int>, s: State,
                       run: seq<Event>, i: nat, j: nat, serverID: string, ts: int, nonce: string)
    requires ttl >= 2 * MAX_SKEW && Instant(ts) - start < INT64_LIMIT
    requires ClockFrom(start, restarts, run) && i < j < |run|
    requires AcceptsAt(verify, ttl, s, run, i, serverID, ts, nonce)
             && AcceptsAt(verify, ttl, s, run, j, serverID, ts, nonce)
    ensures exists r :: r in restarts && Time(run[i]) <= r <= Instant(ts) + MAX_SKEW
  {
    hide InWindow, Instant, Verified, Decide, Run;
    BothInWindow(verify, ttl, start, restarts, s, run, j, serverID, ts, nonce);
    if NoRestart(run, i, j) {
      ReplayRefused(verify, ttl, start, restarts, s, run, i, j, serverID, ts, nonce);
    }
    var k :| i < k < j && run[k].Restart?;
    assert Time(run[i]) <= Time(run[k]) <= Time(run[j]);
  }

  /** Two accepted connects, `later` once the first entry has expired. */
  lemma ReplayAccepted(verify: (Bytes, string, string) -> bool, ttl: int, restarts: set<int>, first: Attempt,
                       later: int)
    requires first.readable && first.sig != "" && Verified(verify, first)
    requires later >= first.now && later > first.now + ttl && InWindow(later, first.ts.value)
    ensures !AtMostOnce(verify, ttl, first.now, restarts, first.serverID, first.ts.value, first.nonce)
  {
    var s, run := State(map[], {}), [Connect(first), Connect(first.(now := later))];
    assert run[..0] == [] && run[..1] == [run[0]] && [run[0]][..0] == [];
    assert ClockFrom(first.now, restarts, run);
    assert AcceptsAt(verify, ttl, s, run, 0, first.serverID, first.ts.value, first.nonce);
    var key := CacheKey(first.serverID, first.nonce);
    assert Run(verify, ttl, s, run[..1]).seen == map[key := first.now + ttl];
    assert AcceptsAt(verify, ttl, s, run, 1, first.serverID, first.ts.value, first.nonce);
  }

  /** A restart within the skew window lets the same connect be accepted again. */
  lemma ReplayAfterRestart(verify: (Bytes, string, string) -> bool, ttl: int, restarts: set<int>, first: Attempt,
                           r: int)
    requires first.readable && first.sig != "" && Verified(verify, first)
    requires r in restarts && first.now <= r && InWindow(r, first.ts.value)
    ensures !AtMostOnce(verify, ttl, first.now, restarts, first.serverID, first.ts.value, first.nonce)
  {
    var s, run := State(map[], {}), [Connect(first), Restart(r), Connect(first.(now := r))];
    assert run[..0] == [] && run[..2][..1] == [run[0]] && run[..2] == [run[0], run[1]];
    assert ClockFrom(first.now, restarts, run);
    assert AcceptsAt(verify, ttl, s, run, 0, first.serverID, first.ts.value, first.nonce);
    assert Run(verify, ttl, s, run[..2]).seen == map[];
    assert AcceptsAt(verify, ttl, s, run, 2, first.serverID, first.ts.value, first.nonce);
  }

  /** No restart falls between `start` and the end of the timestamp's skew window. */
  ghost predicate WindowUndisturbed(start: int, restarts: set<int>, ts: int) {
    forall r :: r in restarts ==> !(start <= r <= Instant(ts) + MAX_SKEW)
  }

  /**
   * Over every run from a clock reading at which the signed triple is first presented, with the
   * dashboard restarting at any of the given times, it is accepted at most once, although the cache
   * is pruned, exactly if none of these times falls between that reading and the end of the skew
   * window, and the timestamp is less than 2^63 nanoseconds ahead of the clock.
   */
  lemma AtMostOnceIff(verify: (Bytes, string, string) -> bool, restarts: set<int>, first: Attempt)
    requires first.readable && first.sig != "" && Verified(verify, first)
    ensures AtMostOnce(verify, 2 * MAX_SKEW, first.now, restarts, first.serverID, first.ts.value, first.nonce)
            <==> WindowUndisturbed(first.now, restarts, first.ts.value) &&
                 Instant(first.ts.value) - first.now < INT64_LIMIT
  {
    var start, ts := first.now, first.ts.value;
    InWindowIff(start, ts);
    if Instant(ts) - start >= INT64_LIMIT {
      InWindowIff(Instant(ts), ts);
      ReplayAccepted(verify, 2 * MAX_SKEW, restarts, first, Instant(ts));
    } else if !WindowUndisturbed(start, restarts, ts) {
      var r :| r in restarts && start <= r <= Instant(ts) + MAX_SKEW;
      InWindowIff(r, ts);
      ReplayAfterRestart(verify, 2 * MAX_SKEW, restarts, first, r);
    } else {
      OnceWhileUndisturbed(verify, 2 * MAX_SKEW, start, restarts, first.serverID, ts, first.nonce);
    }
  }

  lemma OnceWhileUndisturbed(verify: (Bytes, string, string) -> bool, ttl: int, start: int, restarts: set<int>,
                             serverID: string, ts: int, nonce: string)
    requires ttl >= 2 * MAX_SKEW && Instant(ts) - start < INT64_LIMIT && WindowUndisturbed(start, restarts, ts)
    ensures AtMostOnce(verify, ttl, start, restarts, serverID, ts, nonce)
  {
    hide AcceptsAt, Instant;
    forall s, run, i: nat, j: nat |
      ClockFrom(start, restarts, run) && i < j < |run| && AcceptsAt(verify, ttl, s, run, i, serverID, ts, nonce)
      ensures !AcceptsAt(verify, ttl, s, run, j, serverID, ts, nonce)
    {
      if AcceptsAt(verify, ttl, s, run, j, serverID, ts, nonce) {
        RestartBetween(verify, ttl, start, restarts, s, run, i, j, serverID, ts, nonce);
      }
    }
  }

  /**
   * While the dashboard does not restart, a signed triple is accepted at most once exactly if its
   * difference to the clock does not saturate.
   */
  lemma AtMostOnceInOneProcessIff(verify: (Bytes, string, string) -> bool, first: Attempt)
    requires first.readable && first.sig != "" && Verified(verify, first)
    ensures AtMostOnce(verify, 2 * MAX_SKEW, first.now, {}, first.serverID, first.ts.value, first.nonce)
            <==> Instant(first.ts.value) - first.now < INT64_LIMIT
  {
    AtMostOnceIff(verify, {}, first);
  }

  /** Twice the skew is exactly tight: without restarts, any shorter lifetime lets some connect be replayed. */
  lemma ExpiryTight(verify: (Bytes, string, string) -> bool, ttl: int, first: Attempt)
    requires first.readable && first.sig != "" && Verified(verify, first) && 0 <= ttl
    requires Instant(first.ts.value) - first.now == MAX_SKEW
    ensures AtMostOnce(verify, ttl, first.now, {}, first.serverID, first.ts.value, first.nonce) <==> ttl >= 2 * MAX_SKEW
  {
    var start, ts := first.now, first.ts.value;
    if ttl >= 2 * MAX_SKEW {
      OnceWhileUndisturbed(verify, ttl, start, {}, first.serverID, ts, first.nonce);
    } else {
      InWindowIff(start + 2 * MAX_SKEW, ts);
      ReplayAccepted(verify, ttl, {}, first, start + 2 * MAX_SKEW);
    }
  }

  /** Once a signed connect was accepted and recorded, no unsigned connect for that server is, restarts or not. */
  lemma {:induction false} UnsignedRefusedAfterSigned(verify: (Bytes, string, string) -> bool, ttl: int, s: State,
                                                      run: seq<Event>, i: nat, j: nat)
    requires i < j < |run| && run[i].Connect? && run[j].Connect?
    requires Decide(verify, Run(verify, ttl, s, run[..i]), run[i].attempt) == Accepted
    requires run[i].attempt.markStored && run[j].attempt.serverID == run[i].attempt.serverID
    ensures Decide(verify, Run(verify, ttl, s, run[..j]), run[j].attempt) != AcceptedUnsigned
  {
    StaysSigned(verify, ttl, s, run, i, j);
  }

  lemma {:induction false} StaysSigned(verify: (Bytes, string, string) -> bool, ttl: int, s: State,
                                       run: seq<Event>, i: nat, j: nat)
    requires i < j <= |run| && run[i].Connect?
    requires Decide(verify, Run(verify, ttl, s, run[..i]), run[i].attempt) == Accepted && run[i].attempt.markStored
    ensures run[i].attempt.serverID in Run(verify, ttl, s, run[..j]).signed
    decreases j
  {
    var before := Run(verify, ttl, s, run[..j - 1]);
    assert run[..j][..j - 1] == run[..j - 1];
    assert Run(verify, ttl, s, run[..j]) == Step(verify, ttl, before, run[j - 1]);
    hide Run, Step;
    SignedGrows(verify, ttl, before, run[j - 1]);
    if j == i + 1 {
      AcceptedIsSigned(verify, ttl, before, run[i].attempt);
    } else {
      StaysSigned(verify, ttl, s, run, i, j - 1);
    }
  }

  lemma SignedGrows(verify: (Bytes, string, string) -> bool, ttl: int, s: State, e: Event)
    ensures s.signed <= Step(verify, ttl, s, e).signed
  {
    hide Verified, CacheKey, Remember;
  }

  lemma AcceptedIsSigned(verify: (Bytes, string, string) -> bool, ttl: int, s: State, a: Attempt)
    requires Decide(verify, s, a) == Accepted && a.markStored
    ensures a.serverID in Step(verify, ttl, s, Connect(a)).signed
  {
    hide VerifyAgentAuth, CacheKey;
  }

  // ---------------------------------------------------------------- exactly which connects are accepted

  /** Event `j` was accepted as a signed connect of this server with this nonce. */
  ghost predicate TookNonce(verify: (Bytes, string, string) -> bool, ttl: int, s: State, run: seq<Event>, j: nat,
                            serverID: string, nonce: string)
    requires j < |run|
  {
    && run[j].Connect? && run[j].attempt.serverID == serverID && run[j].attempt.nonce == nonce
    && Decide(verify, Run(verify, ttl, s, run[..j]), run[j].attempt) == Accepted
  }

  /** The nonce was accepted for the server before event `i`, at most `ttl` ago and since the last restart. */
  ghost predicate UsedBefore(verify: (Bytes, string, string) -> bool, ttl: int, s: State, run: seq<Event>, i: nat,
                             serverID: string, nonce: string)
    requires i < |run|
  {
    exists j :: 0 <= j < i && TookNonce(verify, ttl, s, run, j, serverID, nonce) && NoRestart(run, j, i)
                && Time(run[i]) - Time(run[j]) <= ttl
  }

  ghost predicate NoBars(run: seq<Event>) {
    forall i :: 0 <= i < |run| && run[i].Connect? ==> '|' !in run[i].attempt.serverID
  }

  /** Event `j` is an accepted connect with this cache key, before event `n` and not before the last restart. */
  ghost predicate CachedAt(verify: (Bytes, string, string) -> bool, ttl: int, s: State, run: seq<Event>, j: nat, n: nat,
                           key: string)
    requires j < |run|
  {
    && j < n && run[j].Connect? && key == CacheKey(run[j].attempt.serverID, run[j].attempt.nonce)
    && TookNonce(verify, ttl, s, run, j, run[j].attempt.serverID, run[j].attempt.nonce)
    && NoRestart(run, j, n)
  }

  lemma CachedByStep(verify: (Bytes, string, string) -> bool, ttl: int, s: State, e: Event, key: string)
    requires key in Step(verify, ttl, s, e).seen
    ensures var seen := Step(verify, ttl, s, e).seen;
            && e.Connect?
            && (!(key in s.seen && seen[key] == s.seen[key]) ==>
                 var a := e.attempt;
                 Decide(verify, s, a) == Accepted && key == CacheKey(a.serverID, a.nonce) && seen[key] == a.now + ttl)
  {
    hide Verified, CacheKey;
  }

  lemma RunUnfold(verify: (Bytes, string, string) -> bool, ttl: int, s: State, run: seq<Event>, n: nat)
    requires 0 < n <= |run|
    ensures Run(verify, ttl, s, run[..n]) == Step(verify, ttl, Run(verify, ttl, s, run[..n - 1]), run[n - 1])
  {
    assert run[..n][..n - 1] == run[..n - 1];
  }

  /** Starting from an empty cache, every entry comes from an accepted connect. */
  lemma {:induction false} CacheHasSources(verify: (Bytes, string, string) -> bool, ttl: int, s: State,
                                           run: seq<Event>, n: nat, key: string) returns (j: nat)
    requires s.seen == map[] && n <= |run| && key in Run(verify, ttl, s, run[..n]).seen
    ensures j < n && CachedAt(verify, ttl, s, run, j, n, key)
    ensures Run(verify, ttl, s, run[..n]).seen[key] == Time(run[j]) + ttl
    decreases n
  {
    assert n > 0;
    var before := Run(verify, ttl, s, run[..n - 1]);
    RunUnfold(verify, ttl, s, run, n);
    hide Run;
    CachedByStep(verify, ttl, before, run[n - 1], key);
    hide Step, Decide, CacheKey;
    if key in before.seen && Run(verify, ttl, s, run[..n]).seen[key] == before.seen[key] {
      j := CacheHasSources(verify, ttl, s, run, n - 1, key);
      hide TookNonce;
    } else {
      j := n - 1;
    }
  }

  /**
   * Over every run from an empty cache, restarts included: a signed connect is accepted exactly if it
   * verifies and its nonce was not accepted for its server since the last restart and within the
   * lifetime of an entry. So a connect that is no replay is never refused as one.
   */
  lemma AcceptedIff(verify: (Bytes, string, string) -> bool, ttl: int, start: int, restarts: set<int>, s: State,
                    run: seq<Event>, i: nat)
    requires ttl >= 0 && s.seen == map[] && ClockFrom(start, restarts, run) && NoBars(run)
    requires i < |run| && run[i].Connect? && run[i].attempt.readable && run[i].attempt.sig != ""
    ensures var a := run[i].attempt;
            Decide(verify, Run(verify, ttl, s, run[..i]), a) == Accepted
            <==> Verified(verify, a) && !UsedBefore(verify, ttl, s, run, i, a.serverID, a.nonce)
  {
    var a, seen := run[i].attempt, Run(verify, ttl, s, run[..i]).seen;
    var key := CacheKey(a.serverID, a.nonce);
    hide Verified, Run;
    if UsedBefore(verify, ttl, s, run, i, a.serverID, a.nonce) {
      var j :| 0 <= j < i && TookNonce(verify, ttl, s, run, j, a.serverID, a.nonce) && NoRestart(run, j, i)
               && Time(run[i]) - Time(run[j]) <= ttl;
      Accepting(verify, Run(verify, ttl, s, run[..j]), run[j].attempt);
      CachedUntilExpiry(verify, ttl, start, restarts, s, run, j, i, a.serverID, run[j].attempt.ts.value, a.nonce);
    } else if key in seen && a.now <= seen[key] {
      var j := CacheHasSources(verify, ttl, s, run, i, key);
      hide Decide;
      SplitAtBar(a.serverID, a.nonce, run[j].attempt.serverID, run[j].attempt.nonce);
    }
  }

  /** A signed connect of this server was accepted and recorded before event `i`. */
  ghost predicate SignedBefore(verify: (Bytes, string, string) -> bool, ttl: int, s: State, run: seq<Event>, i: nat,
                               serverID: string)
    requires i <= |run|
  {
    exists j :: 0 <= j < i && run[j].Connect? && run[j].attempt.markStored
                && TookNonce(verify, ttl, s, run, j, serverID, run[j].attempt.nonce)
  }

  predicate Marks(verify: (Bytes, string, string) -> bool, s: State, e: Event, serverID: string) {
    e.Connect? && e.attempt.markStored && e.attempt.serverID == serverID && Decide(verify, s, e.attempt) == Accepted
  }

  lemma MarkedByStep(verify: (Bytes, string, string) -> bool, ttl: int, s: State, e: Event, serverID: string)
    ensures serverID in Step(verify, ttl, s, e).signed <==> serverID in s.signed || Marks(verify, s, e, serverID)
  {
    hide Verified, CacheKey, Remember;
  }

  lemma SignedBeforeLast(verify: (Bytes, string, string) -> bool, ttl: int, s: State, run: seq<Event>, i: nat,
                         serverID: string)
    requires 0 < i <= |run|
    ensures SignedBefore(verify, ttl, s, run, i, serverID)
            <==> SignedBefore(verify, ttl, s, run, i - 1, serverID)
                 || Marks(verify, Run(verify, ttl, s, run[..i - 1]), run[i - 1], serverID)
  {
    hide Run, Decide;
  }

  lemma {:induction false} MarkedIff(verify: (Bytes, string, string) -> bool, ttl: int, s: State, run: seq<Event>,
                                     i: nat, serverID: string)
    requires i <= |run|
    ensures serverID in Run(verify, ttl, s, run[..i]).signed
            <==> serverID in s.signed || SignedBefore(verify, ttl, s, run, i, serverID)
    decreases i
  {
    if i > 0 {
      var before := Run(verify, ttl, s, run[..i - 1]);
      RunUnfold(verify, ttl, s, run, i);
      MarkedIff(verify, ttl, s, run, i - 1, serverID);
      MarkedByStep(verify, ttl, before, run[i - 1], serverID);
      SignedBeforeLast(verify, ttl, s, run, i, serverID);
      hide *;
    }
  }

  /**
   * Over every run, restarts included: an unsigned connect is accepted exactly if the server row can be
   * read, unsigned connects are not refused for all, and no signed one of this server was recorded.
   */
  lemma UnsignedAcceptedIff(verify: (Bytes, string, string) -> bool, ttl: int, s: State, run: seq<Event>, i: nat)
    requires i < |run| && run[i].Connect?
    ensures var a := run[i].attempt;
            Decide(verify, Run(verify, ttl, s, run[..i]), a) == AcceptedUnsigned
            <==> a.readable && a.sig == "" && !a.requireSigned && a.serverID !in s.signed
                 && !SignedBefore(verify, ttl, s, run, i, a.serverID)
  {
    MarkedIff(verify, ttl, s, run, i, run[i].attempt.serverID);
    hide Run, Verified;
  }
}
