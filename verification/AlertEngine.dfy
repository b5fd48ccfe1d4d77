/**
 * The alert evaluator's in-memory states and the alerts table they must agree with
 * (internal/dashboard/alerting/evaluator.go, internal/store/alert_store.go). Instants are
 * nanoseconds since the Unix epoch; the table stores whole seconds.
 */
module AlertEngine {
  import opened Prelude

  const STALE_AFTER: int := 300 * 1_000_000_000

  /** Alerts of this rule are written by another component, straight into the table. */
  const REGRESSION_RULE: string := "builtin-version-regression"

  function Seconds(ns: int): int {
    ns / 1_000_000_000
  }

  function Nanos(seconds: int): int {
    seconds * 1_000_000_000
  }

  // ---------------------------------------------------------------- records and states

  /** The evaluator names its alerts by clock reading and counter. */
  datatype AlertId = EvaluatorId(nano: int, counter: nat) | ForeignId(name: string)

  datatype RecordState = RecordPending | RecordFiring | RecordResolved

  datatype AlertRecord = AlertRecord(
    id: AlertId, ruleID: string, nodeID: string, serverID: string,
    state: RecordState, firedAt: int, resolvedAt: int, notifiedAt: int, createdAt: int)

  datatype Key = NodeKey(rule: string, node: string) | ServerKey(rule: string, server: string)

  /** "ruleID:nodeID" or "ruleID:server:serverID" */
  function StateKey(k: Key): string {
    match k
    case NodeKey(rule, node) => rule + ":" + node
    case ServerKey(rule, server) => rule + ":" + ("server:" + server)
  }

  /** The strings used as map keys are as distinct as the keys they stand for. */
  lemma StateKeyInjective(a: Key, b: Key)
    requires ':' !in a.rule && ':' !in b.rule
    requires (a.NodeKey? ==> !("server:" <= a.node)) && (b.NodeKey? ==> !("server:" <= b.node))
    ensures StateKey(a) == StateKey(b) <==> a == b
  {
    var s, t := StateKey(a), StateKey(b);
    if s == t {
      assert s[|a.rule|] == ':' && forall i :: 0 <= i < |a.rule| ==> s[i] != ':';
      assert t[|b.rule|] == ':' && forall i :: 0 <= i < |b.rule| ==> t[i] != ':';
      assert |a.rule| == |b.rule|;
      assert s[..|a.rule|] == a.rule && t[..|b.rule|] == b.rule;
      var x, y := s[|a.rule| + 1..], t[|b.rule| + 1..];
      assert a.NodeKey? ==> x == a.node;
      assert b.NodeKey? ==> y == b.node;
      assert a.ServerKey? ==> x == "server:" + a.server && x[7..] == a.server;
      assert b.ServerKey? ==> y == "server:" + b.server && y[7..] == b.server;
    }
  }

  predicate Active(r: AlertRecord) {
    r.state == RecordPending || r.state == RecordFiring
  }

  /** The key under which hydration files a record. */
  function KeyOf(r: AlertRecord): Option<Key> {
    if r.nodeID != "" then Some(NodeKey(r.ruleID, r.nodeID)) else
    if r.serverID != "" then Some(ServerKey(r.ruleID, r.serverID)) else
    None
  }

  /** A state is pending until it fires; resolved states are dropped at once. */
  datatype AlertState = AlertState(
    firstSeen: int, lastSeen: int, firing: bool, notifiedAt: Option<int>, record: Option<AlertRecord>)

  datatype Rule = Rule(id: string, durationSec: int, cooldownMin: int)

  datatype Subject = Node(nodeID: string, serverID: string) | Server(serverID: string)

  function SubjectKey(rule: string, s: Subject): Key {
    match s
    case Node(node, _) => NodeKey(rule, node)
    case Server(server) => ServerKey(rule, server)
  }

  datatype Kind = Fired | Renotified(cooldownMin: int) | Recovered

  /** `id` is the alert record the message is about, if there is one. */
  datatype Notification = Notification(kind: Kind, id: Option<AlertId>, at: int)

  type States = map<Key, AlertState>
  type Table = map<AlertId, AlertRecord>

  datatype World = World(
    states: States, table: Table, idCounter: nat, sent: seq<Notification>,
    boot: int, clock: int)

  // ---------------------------------------------------------------- the table

  /** INSERT; a duplicate primary key, or a failing write, inserts nothing. */
  function Create(t: Table, r: AlertRecord, failing: set<AlertId>): Table {
    if r.id in t || r.id in failing then t else t[r.id := r]
  }

  /** UPDATE of the columns that may change. */
  function Update(t: Table, r: AlertRecord, failing: set<AlertId>): Table {
    if r.id !in t || r.id in failing then t else
    t[r.id := t[r.id].(state := r.state, firedAt := r.firedAt, resolvedAt := r.resolvedAt, notifiedAt := r.notifiedAt)]
  }

  predicate Matches(r: AlertRecord, k: Key) {
    Active(r) && KeyOf(r) == Some(k)
  }

  /** SELECT ... LIMIT 1 */
  predicate IsFind(t: Table, k: Key, found: Option<AlertRecord>) {
    match found
    case None => forall id :: id in t ==> !Matches(t[id], k)
    case Some(r) => r.id in t && t[r.id] == r && Matches(r, k)
  }

  /** What the evaluator makes of a lookup: its answer, or nothing when it fails. */
  predicate MayFind(t: Table, k: Key, found: Option<AlertRecord>) {
    found == None || IsFind(t, k, found)
  }

  /** SELECT of the active rows, in some order. */
  ghost predicate IsListing(t: Table, rows: seq<AlertRecord>) {
    && (forall i :: 0 <= i < |rows| ==> rows[i].id in t && t[rows[i].id] == rows[i] && Active(rows[i]))
    && (forall id :: id in t && Active(t[id]) ==> t[id] in rows)
  }

  // ---------------------------------------------------------------- one step

  function Resolved(r: AlertRecord, now: int): AlertRecord {
    r.(state := RecordResolved, resolvedAt := Seconds(now))
  }

  /** resolveAlert, and dropping the state. */
  function Resolve(w: World, k: Key, now: int, failing: set<AlertId>, notify: bool): World {
    if k !in w.states then w else
    var dropped := w.(states := w.states - {k});
    match w.states[k].record
    case None => dropped
    case Some(r) =>
      dropped.(
        table := Update(w.table, Resolved(r, now), failing),
        sent := if notify then w.sent + [Notification(Recovered, Some(r.id), now)] else w.sent)
  }

  function NewRecord(w: World, rule: Rule, s: Subject, now: int): AlertRecord {
    var t := Seconds(now);
    AlertRecord(EvaluatorId(now, w.idCounter), rule.id, if s.Node? then s.nodeID else "", s.serverID,
                RecordFiring, t, 0, t, t)
  }

  /** fireAlert */
  function Fire(w: World, rule: Rule, s: Subject, st: AlertState, found: Option<AlertRecord>, now: int,
                failing: set<AlertId>): World {
    var k := SubjectKey(rule.id, s);
    match found
    case Some(r) =>
      w.(states := w.states[k := st.(firing := true, record := Some(r), notifiedAt := Some(Nanos(r.notifiedAt)))])
    case None =>
      var r := NewRecord(w, rule, s, now);
      w.(states := w.states[k := st.(firing := true, record := Some(r), notifiedAt := Some(now))],
         table := Create(w.table, r, failing),
         idCounter := w.idCounter + 1,
         sent := w.sent + [Notification(Fired, Some(r.id), now)])
  }

  predicate CooledDown(st: AlertState, rule: Rule, now: int) {
    st.notifiedAt.Some? && now - st.notifiedAt.value >= Nanos(rule.cooldownMin * 60)
  }

  /** Another notification for an alert that keeps firing. */
  function Renotify(w: World, k: Key, rule: Rule, st: AlertState, now: int, failing: set<AlertId>): World {
    match st.record
    case None =>
      w.(states := w.states[k := st.(notifiedAt := Some(now))],
         sent := w.sent + [Notification(Renotified(rule.cooldownMin), None, now)])
    case Some(r) =>
      var r' := r.(notifiedAt := Seconds(now));
      w.(states := w.states[k := st.(notifiedAt := Some(now), record := Some(r'))],
         table := Update(w.table, r', failing),
         sent := w.sent + [Notification(Renotified(rule.cooldownMin), Some(r.id), now)])
  }

  /** The state a breached observation starts from, marked as seen. */
  function SeenState(w: World, k: Key, now: int): AlertState {
    if k in w.states then w.states[k].(lastSeen := now) else AlertState(now, now, false, None, None)
  }

  predicate DurationReached(st: AlertState, rule: Rule, now: int) {
    now - st.firstSeen >= Nanos(rule.durationSec)
  }

  /** processResult */
  function Process(w: World, rule: Rule, s: Subject, breached: bool, found: Option<AlertRecord>, now: int,
                   failing: set<AlertId>): World {
    var k := SubjectKey(rule.id, s);
    if !breached then Resolve(w, k, now, failing, true) else
    var st := SeenState(w, k, now);
    if st.firing then
      if CooledDown(st, rule, now) then Renotify(w, k, rule, st, now, failing) else w.(states := w.states[k := st])
    else if DurationReached(st, rule, now) then Fire(w, rule, s, st, found, now, failing)
    else w.(states := w.states[k := st])
  }

  /** resolveStaleAlerts, for one key. */
  function Expire(w: World, k: Key, now: int, failing: set<AlertId>): World {
    if k in w.states && w.states[k].lastSeen < now - STALE_AFTER then Resolve(w, k, now, failing, false) else w
  }

  /** hydrateFromDB: every listed record under its key, later ones replacing earlier ones. */
  function Hydrate(rows: seq<AlertRecord>): States {
    if rows == [] then map[] else
    var r := rows[|rows| - 1];
    var rest := Hydrate(rows[..|rows| - 1]);
    match KeyOf(r)
    case None => rest
    case Some(k) =>
      rest[k := AlertState(Nanos(r.firedAt), Nanos(r.createdAt), true, Some(Nanos(r.notifiedAt)), Some(r))]
  }

  datatype Event =
    | Observe(rule: Rule, subject: Subject, breached: bool, found: Option<AlertRecord>, now: int, failing: set<AlertId>)
    | MarkNormal(key: Key, now: int, failing: set<AlertId>)
    | Stale(key: Key, now: int, failing: set<AlertId>)
    | Restart(rows: seq<AlertRecord>, read: bool, now: int)
    | Foreign(row: AlertRecord, now: int)

  function Act(w: World, e: Event): World {
    match e
    case Observe(rule, s, breached, found, now, failing) => Process(w, rule, s, breached, found, now, failing)
    case MarkNormal(k, now, failing) => Resolve(w, k, now, failing, true)
    case Stale(k, now, failing) => Expire(w, k, now, failing)
    case Restart(rows, _, now) => w.(states := Hydrate(rows), idCounter := 0, boot := now)
    case Foreign(row, now) => w.(table := Create(w.table, row, {}))
  }

  function Step(w: World, e: Event): World {
    Act(w, e).(clock := e.now)
  }

  predicate ValidSubject(s: Subject) {
    s.serverID != "" && (s.Node? ==> s.nodeID != "")
  }

  /**
   * What may happen: the clock does not go back, and has moved on after a restart; queries answer
   * from the table or fail; the other component writes rows of its own rule.
   */
  ghost predicate Enabled(w: World, e: Event) {
    && w.clock <= e.now
    && match e
       case Observe(rule, s, _, found, _, _) =>
         rule.id != REGRESSION_RULE && ValidSubject(s) && MayFind(w.table, SubjectKey(rule.id, s), found)
       case MarkNormal(_, _, _) => true
       case Stale(_, _, _) => true
       case Restart(rows, read, now) => w.clock < now && if read then IsListing(w.table, rows) else rows == []
       case Foreign(row, _) => row.id.ForeignId? && row.ruleID == REGRESSION_RULE
  }

  const FRESH := World(map[], map[], 0, [], 0, 0)

  function Run(events: seq<Event>): World {
    if events == [] then FRESH else Step(Run(events[..|events| - 1]), events[|events| - 1])
  }

  ghost predicate ValidRun(events: seq<Event>) {
    events == [] || (ValidRun(events[..|events| - 1]) && Enabled(Run(events[..|events| - 1]), events[|events| - 1]))
  }

  // ---------------------------------------------------------------- what holds whatever writes fail

  /** An ID that cannot be handed out again. */
  predicate Used(w: World, id: AlertId) {
    id.EvaluatorId? ==> id.nano <= w.clock && (id.nano < w.boot || id.counter < w.idCounter)
  }

  predicate StateOk(w: World, k: Key)
    requires k in w.states
  {
    var st := w.states[k];
    if st.firing then
      && st.record.Some? && st.notifiedAt.Some?
      && Matches(st.record.value, k) && Used(w, st.record.value.id)
      && (if st.record.value.id in w.table then Matches(w.table[st.record.value.id], k)
          else st.record.value.id.EvaluatorId?)
    else st.record.None? && st.notifiedAt.None?
  }

  predicate RowOk(w: World, id: AlertId)
    requires id in w.table
  {
    w.table[id].id == id && Used(w, id)
  }

  /** At most one active row per key of an evaluator rule. */
  ghost predicate Unique(t: Table) {
    forall i, j, k :: i in t && j in t && Matches(t[i], k) && Matches(t[j], k) && k.rule != REGRESSION_RULE ==> i == j
  }

  ghost predicate Sound(w: World) {
    && w.boot <= w.clock
    && (forall k :: k in w.states ==> StateOk(w, k))
    && (forall id :: id in w.table ==> RowOk(w, id))
  }

  lemma SoundResolve(w: World, k: Key, now: int, failing: set<AlertId>, notify: bool)
    requires Sound(w)
    ensures Sound(Resolve(w, k, now, failing, notify))
  {
    if k in w.states {
      var v := Resolve(w, k, now, failing, notify);
      assert StateOk(w, k);
      forall h | h in v.states
        ensures StateOk(v, h)
      {
        assert StateOk(w, h);
      }
      assert forall id :: id in v.table ==> RowOk(w, id);
    }
  }

  lemma SoundFire(w: World, rule: Rule, s: Subject, st: AlertState, found: Option<AlertRecord>, now: int,
                  failing: set<AlertId>)
    requires Sound(w) && w.clock <= now && ValidSubject(s) && MayFind(w.table, SubjectKey(rule.id, s), found)
    ensures Sound(Fire(w, rule, s, st, found, now, failing).(clock := now))
  {
    var k := SubjectKey(rule.id, s);
    var v := Fire(w, rule, s, st, found, now, failing).(clock := now);
    if found.None? {
      var r := NewRecord(w, rule, s, now);
      assert r.id !in w.table by {
        assert r.id in w.table ==> RowOk(w, r.id);
      }
      assert Matches(r, k);
      forall id | id in v.table
        ensures RowOk(v, id)
      {
        assert id in w.table ==> RowOk(w, id);
      }
      forall h | h in v.states
        ensures StateOk(v, h)
      {
        assert h != k ==> StateOk(w, h);
      }
    } else {
      forall id | id in v.table
        ensures RowOk(v, id)
      {
        assert RowOk(w, id);
      }
      forall h | h in v.states
        ensures StateOk(v, h)
      {
        assert h != k ==> StateOk(w, h);
      }
    }
  }

  lemma SoundRenotify(w: World, k: Key, rule: Rule, st: AlertState, now: int, failing: set<AlertId>)
    requires Sound(w) && k in w.states && st.firing && st == w.states[k].(lastSeen := st.lastSeen)
    ensures Sound(Renotify(w, k, rule, st, now, failing))
  {
    var v := Renotify(w, k, rule, st, now, failing);
    assert StateOk(w, k);
    forall h | h in v.states
      ensures StateOk(v, h)
    {
      assert StateOk(w, h);
    }
    assert forall id :: id in v.table ==> RowOk(w, id);
  }

  lemma SoundClock(w: World, now: int)
    requires Sound(w) && w.clock <= now
    ensures Sound(w.(clock := now))
  {
    var v := w.(clock := now);
    forall h | h in v.states
      ensures StateOk(v, h)
    {
      assert StateOk(w, h);
    }
    assert forall id :: id in v.table ==> RowOk(w, id);
  }

  lemma SoundSeen(w: World, k: Key, st: AlertState)
    requires Sound(w) && (if k in w.states then st == w.states[k].(lastSeen := st.lastSeen)
                          else !st.firing && st.record.None? && st.notifiedAt.None?)
    ensures Sound(w.(states := w.states[k := st]))
  {
    var v := w.(states := w.states[k := st]);
    forall h | h in v.states
      ensures StateOk(v, h)
    {
      assert h in w.states ==> StateOk(w, h);
    }
    assert forall id :: id in v.table ==> RowOk(w, id);
  }

  /** Every hydrated state stands for a listed row of its key, with its times, and every such key is hydrated. */
  lemma {:induction false} Hydrated(rows: seq<AlertRecord>)
    ensures forall k :: k in Hydrate(rows) ==>
              && Hydrate(rows)[k].firing && Hydrate(rows)[k].record.Some? && Hydrate(rows)[k].record.value in rows
              && KeyOf(Hydrate(rows)[k].record.value) == Some(k)
              && Hydrate(rows)[k].notifiedAt == Some(Nanos(Hydrate(rows)[k].record.value.notifiedAt))
              && Hydrate(rows)[k].firstSeen == Nanos(Hydrate(rows)[k].record.value.firedAt)
              && Hydrate(rows)[k].lastSeen == Nanos(Hydrate(rows)[k].record.value.createdAt)
    ensures forall i :: 0 <= i < |rows| && KeyOf(rows[i]).Some? ==> KeyOf(rows[i]).value in Hydrate(rows)
  {
    if rows != [] {
      Hydrated(rows[..|rows| - 1]);
    }
  }

  lemma SoundRestart(w: World, rows: seq<AlertRecord>, read: bool, now: int)
    requires Sound(w) && Enabled(w, Restart(rows, read, now))
    ensures Sound(Step(w, Restart(rows, read, now)))
  {
    var v := Step(w, Restart(rows, read, now));
    Hydrated(rows);
    forall h | h in v.states
      ensures StateOk(v, h)
    {
      assert RowOk(w, v.states[h].record.value.id);
    }
    assert forall id :: id in v.table ==> RowOk(w, id);
  }

  lemma SoundForeign(w: World, row: AlertRecord, now: int)
    requires Sound(w) && Enabled(w, Foreign(row, now))
    ensures Sound(Step(w, Foreign(row, now)))
  {
    var v := Step(w, Foreign(row, now));
    forall h | h in v.states
      ensures StateOk(v, h)
    {
      assert StateOk(w, h);
    }
    forall id | id in v.table
      ensures RowOk(v, id)
    {
      assert id in w.table ==> RowOk(w, id);
    }
  }

  lemma SoundStep(w: World, e: Event)
    requires Sound(w) && Enabled(w, e)
    ensures Sound(Step(w, e))
  {
    match e
    case Observe(rule, s, breached, found, now, failing) =>
      var k := SubjectKey(rule.id, s);
      var st := SeenState(w, k, now);
      if !breached {
        SoundResolve(w, k, now, failing, true);
        SoundClock(Act(w, e), now);
      } else if st.firing && CooledDown(st, rule, now) {
        SoundRenotify(w, k, rule, st, now, failing);
        SoundClock(Act(w, e), now);
      } else if !st.firing && DurationReached(st, rule, now) {
        SoundFire(w, rule, s, st, found, now, failing);
      } else {
        SoundSeen(w, k, st);
        SoundClock(Act(w, e), now);
      }
    case MarkNormal(k, now, failing) =>
      SoundResolve(w, k, now, failing, true);
      SoundClock(Act(w, e), now);
    case Stale(k, now, failing) =>
      SoundResolve(w, k, now, failing, false);
      SoundClock(Act(w, e), now);
    case Restart(rows, read, now) => SoundRestart(w, rows, read, now);
    case Foreign(row, now) => SoundForeign(w, row, now);
  }

  lemma RowsNamed(w: World)
    requires Sound(w)
    ensures forall id :: id in w.table ==> w.table[id].id == id
  {
    assert forall id :: id in w.table ==> RowOk(w, id);
  }

  lemma {:induction false} SoundRun(events: seq<Event>)
    requires ValidRun(events)
    ensures Sound(Run(events))
  {
    if events != [] {
      SoundRun(events[..|events| - 1]);
      SoundStep(Run(events[..|events| - 1]), events[|events| - 1]);
    }
  }

  // ---------------------------------------------------------------- at most one active row

  /** The step creates a row for a key that has an active one, because the lookup for it failed. */
  ghost predicate Duplicates(w: World, e: Event) {
    && e.Observe? && e.breached && e.found == None
    && var k := SubjectKey(e.rule.id, e.subject);
       var st := SeenState(w, k, e.now);
       && !st.firing && DurationReached(st, e.rule, e.now)
       && EvaluatorId(e.now, w.idCounter) !in e.failing
       && exists id :: id in w.table && Matches(w.table[id], k)
  }

  /** Changes that activate no row keep uniqueness. */
  lemma UniqueFewer(t: Table, u: Table)
    requires Unique(t)
    requires forall id, k :: id in u && Matches(u[id], k) && k.rule != REGRESSION_RULE ==> id in t && Matches(t[id], k)
    ensures Unique(u)
  {
  }

  lemma UniqueUpdate(t: Table, r: AlertRecord, failing: set<AlertId>)
    requires Unique(t) && (Active(r) && r.id in t ==> Active(t[r.id]))
    ensures Unique(Update(t, r, failing))
  {
    UniqueFewer(t, Update(t, r, failing));
  }

  lemma UniqueResolve(w: World, k: Key, now: int, failing: set<AlertId>, notify: bool)
    requires Unique(w.table)
    ensures Unique(Resolve(w, k, now, failing, notify).table)
  {
    if k in w.states && w.states[k].record.Some? {
      UniqueUpdate(w.table, Resolved(w.states[k].record.value, now), failing);
    }
  }

  lemma UniqueRenotify(w: World, k: Key, rule: Rule, st: AlertState, now: int, failing: set<AlertId>)
    requires Sound(w) && Unique(w.table) && k in w.states && st.firing && st == w.states[k].(lastSeen := st.lastSeen)
    ensures Unique(Renotify(w, k, rule, st, now, failing).table)
  {
    assert StateOk(w, k);
    UniqueUpdate(w.table, st.record.value.(notifiedAt := Seconds(now)), failing);
  }

  /** A new active row keeps uniqueness exactly if its key has no other, or the insert fails. */
  lemma UniqueCreateIff(t: Table, r: AlertRecord, k: Key, failing: set<AlertId>)
    requires Unique(t) && r.id !in t && Matches(r, k) && k.rule != REGRESSION_RULE
    ensures Unique(Create(t, r, failing)) <==> r.id in failing || forall id :: id in t ==> !Matches(t[id], k)
  {
    var u := Create(t, r, failing);
    if r.id !in failing {
      if id :| id in t && Matches(t[id], k) {
        assert id in u && r.id in u && Matches(u[id], k) && Matches(u[r.id], k);
      }
    }
  }

  lemma UniqueFireIff(w: World, rule: Rule, s: Subject, st: AlertState, found: Option<AlertRecord>, now: int,
                      failing: set<AlertId>)
    requires Sound(w) && Unique(w.table) && w.clock <= now && ValidSubject(s) && rule.id != REGRESSION_RULE
    requires MayFind(w.table, SubjectKey(rule.id, s), found)
    ensures var k := SubjectKey(rule.id, s);
            Unique(Fire(w, rule, s, st, found, now, failing).table) <==>
            !(found == None && EvaluatorId(now, w.idCounter) !in failing &&
              exists id :: id in w.table && Matches(w.table[id], k))
  {
    if found.None? {
      var r := NewRecord(w, rule, s, now);
      assert r.id !in w.table by {
        assert r.id in w.table ==> RowOk(w, r.id);
      }
      UniqueCreateIff(w.table, r, SubjectKey(rule.id, s), failing);
    }
  }

  lemma UniqueForeign(w: World, row: AlertRecord, now: int)
    requires Unique(w.table) && Enabled(w, Foreign(row, now))
    ensures Unique(Step(w, Foreign(row, now)).table)
  {
    UniqueFewer(w.table, Step(w, Foreign(row, now)).table);
  }

  /** A step breaks uniqueness exactly if it duplicates. */
  lemma UniqueStepIff(w: World, e: Event)
    requires Sound(w) && Unique(w.table) && Enabled(w, e)
    ensures Unique(Step(w, e).table) <==> !Duplicates(w, e)
  {
    hide Sound, Unique, Resolve, Fire, Renotify, Create;
    match e
    case Observe(rule, s, breached, found, now, failing) =>
      var k := SubjectKey(rule.id, s);
      var st := SeenState(w, k, now);
      if !breached {
        UniqueResolve(w, k, now, failing, true);
      } else if st.firing && CooledDown(st, rule, now) {
        UniqueRenotify(w, k, rule, st, now, failing);
      } else if !st.firing && DurationReached(st, rule, now) {
        UniqueFireIff(w, rule, s, st, found, now, failing);
      }
    case MarkNormal(k, now, failing) => UniqueResolve(w, k, now, failing, true);
    case Stale(k, now, failing) => UniqueResolve(w, k, now, failing, false);
    case Restart(_, _, _) =>
    case Foreign(row, now) => UniqueForeign(w, row, now);
  }

  ghost predicate AlwaysUnique(events: seq<Event>) {
    forall n :: 0 <= n <= |events| ==> Unique(Run(events[..n]).table)
  }

  ghost predicate NeverDuplicates(events: seq<Event>) {
    forall n :: 0 <= n < |events| ==> !Duplicates(Run(events[..n]), events[n])
  }

  lemma AlwaysUniqueLast(events: seq<Event>)
    requires events != []
    ensures AlwaysUnique(events) <==> AlwaysUnique(events[..|events| - 1]) && Unique(Run(events).table)
    ensures AlwaysUnique(events) ==> Unique(Run(events).table) && Unique(Run(events[..|events| - 1]).table)
  {
    hide Unique, Run;
    var before := events[..|events| - 1];
    assert events[..|events|] == events;
    forall n | 0 <= n <= |before|
      ensures before[..n] == events[..n]
    {
    }
    assert AlwaysUnique(events) ==> Unique(Run(events[..|events|]).table) && Unique(Run(events[..|events| - 1]).table);
  }

  lemma NeverDuplicatesLast(events: seq<Event>)
    requires events != []
    ensures NeverDuplicates(events) <==>
            NeverDuplicates(events[..|events| - 1]) && !Duplicates(Run(events[..|events| - 1]), events[|events| - 1])
  {
    hide Duplicates, Run;
    var before := events[..|events| - 1];
    forall n | 0 <= n < |before|
      ensures before[..n] == events[..n] && before[n] == events[n]
    {
    }
  }

  /**
   * Over every run, with writes and reads failing anywhere and across restarts, at most one active row
   * exists per (rule, node) and per (rule, server) of the evaluator's rules at all times exactly if
   * no step creates a row because the lookup of the active one failed.
   */
  lemma {:induction false} AtMostOneActiveIff(events: seq<Event>)
    requires ValidRun(events)
    ensures AlwaysUnique(events) <==> NeverDuplicates(events)
  {
    if events == [] {
      assert events[..0] == [];
    } else {
      var m := |events| - 1;
      AtMostOneActiveIff(events[..m]);
      AlwaysUniqueLast(events);
      NeverDuplicatesLast(events);
      SoundRun(events[..m]);
      hide Unique, Duplicates, Enabled, AlwaysUnique, NeverDuplicates, Step;
      if AlwaysUnique(events[..m]) {
        UniqueAtEnd(events[..m]);
        UniqueStepIff(Run(events[..m]), events[m]);
      }
    }
  }

  lemma UniqueAtEnd(events: seq<Event>)
    requires AlwaysUnique(events)
    ensures Unique(Run(events).table)
  {
    hide Unique, Run;
    assert events[..|events|] == events;
    assert Unique(Run(events[..|events|]).table);
  }

  /** In particular, while lookups do not fail. */
  lemma {:induction false} AtMostOneActive(events: seq<Event>, k: Key)
    requires ValidRun(events) && k.rule != REGRESSION_RULE
    requires forall n :: 0 <= n < |events| && events[n].Observe? ==>
               IsFind(Run(events[..n]).table, SubjectKey(events[n].rule.id, events[n].subject), events[n].found)
    ensures var t := Run(events).table;
            forall i, j :: i in t && j in t && Matches(t[i], k) && Matches(t[j], k) ==> i == j
  {
    AtMostOneActiveIff(events);
    assert NeverDuplicates(events) by {
      hide Run, Enabled;
    }
    UniqueAtEnd(events);
    hide Run;
  }

  // ---------------------------------------------------------------- what holds while writes succeed

  /** Writes, and the listing at a restart, succeed; lookups may still fail. */
  predicate WritesSucceed(e: Event) {
    match e
    case Observe(_, _, _, _, _, failing) => failing == {}
    case MarkNormal(_, _, failing) => failing == {}
    case Stale(_, _, failing) => failing == {}
    case Restart(_, read, _) => read
    case Foreign(_, _) => true
  }

  ghost predicate AllSucceed(events: seq<Event>) {
    forall i :: 0 <= i < |events| ==> WritesSucceed(events[i])
  }

  /** The record of a firing state is a row, notified when the state says. */
  predicate Backed(w: World, k: Key)
    requires k in w.states
  {
    var st := w.states[k];
    st.firing && st.record.Some? && st.notifiedAt.Some? ==>
      && st.record.value.id in w.table
      && w.table[st.record.value.id].notifiedAt == Seconds(st.notifiedAt.value) == st.record.value.notifiedAt
  }

  /** An active row of an evaluator rule is the record of its key's firing state. */
  predicate Tracked(w: World, id: AlertId)
    requires id in w.table
  {
    Active(w.table[id]) && KeyOf(w.table[id]).Some? && w.table[id].ruleID != REGRESSION_RULE ==>
      var k := KeyOf(w.table[id]).value;
      && k in w.states && w.states[k].firing
      && w.states[k].record.Some? && w.states[k].record.value.id == id
  }

  predicate Agree(w: World) {
    && (forall k :: k in w.states ==> Backed(w, k))
    && (forall id :: id in w.table ==> Tracked(w, id))
  }

  lemma AgreeResolve(w: World, k: Key, now: int, notify: bool)
    requires Sound(w) && Agree(w)
    ensures Agree(Resolve(w, k, now, {}, notify))
  {
    if k in w.states {
      var v := Resolve(w, k, now, {}, notify);
      assert StateOk(w, k) && Backed(w, k);
      forall h | h in v.states
        ensures Backed(v, h)
      {
        assert StateOk(w, h) && Backed(w, h);
      }
      forall id | id in v.table
        ensures Tracked(v, id)
      {
        assert Tracked(w, id) && RowOk(w, id);
      }
    }
  }

  lemma AgreeFire(w: World, rule: Rule, s: Subject, st: AlertState, found: Option<AlertRecord>, now: int)
    requires Sound(w) && Agree(w) && w.clock <= now && ValidSubject(s)
             && MayFind(w.table, SubjectKey(rule.id, s), found)
    requires rule.id != REGRESSION_RULE
             && (SubjectKey(rule.id, s) in w.states ==> !w.states[SubjectKey(rule.id, s)].firing)
    ensures Agree(Fire(w, rule, s, st, found, now, {}))
  {
    var k := SubjectKey(rule.id, s);
    var v := Fire(w, rule, s, st, found, now, {});
    if found.None? {
      var r := NewRecord(w, rule, s, now);
      assert r.id !in w.table by {
        assert r.id in w.table ==> RowOk(w, r.id);
      }
      assert Matches(r, k);
    }
    forall h | h in v.states
      ensures Backed(v, h)
    {
      assert h != k ==> StateOk(w, h) && Backed(w, h);
    }
    forall id | id in v.table
      ensures Tracked(v, id)
    {
      assert id in w.table ==> Tracked(w, id) && RowOk(w, id);
    }
  }

  lemma AgreeRenotify(w: World, k: Key, rule: Rule, st: AlertState, now: int)
    requires Sound(w) && Agree(w) && k in w.states && st.firing && st == w.states[k].(lastSeen := st.lastSeen)
    ensures Agree(Renotify(w, k, rule, st, now, {}))
  {
    var v := Renotify(w, k, rule, st, now, {});
    assert StateOk(w, k) && Backed(w, k);
    forall h | h in v.states
      ensures Backed(v, h)
    {
      assert StateOk(w, h) && Backed(w, h);
    }
    forall id | id in v.table
      ensures Tracked(v, id)
    {
      assert Tracked(w, id) && RowOk(w, id);
    }
  }

  lemma AgreeSeen(w: World, k: Key, st: AlertState)
    requires Sound(w) && Agree(w) && (if k in w.states then st == w.states[k].(lastSeen := st.lastSeen)
                                      else !st.firing && st.record.None? && st.notifiedAt.None?)
    ensures Agree(w.(states := w.states[k := st]))
  {
    var v := w.(states := w.states[k := st]);
    forall h | h in v.states
      ensures Backed(v, h)
    {
      assert h in w.states ==> Backed(w, h);
    }
    forall id | id in v.table
      ensures Tracked(v, id)
    {
      assert Tracked(w, id);
    }
  }

  lemma AgreeRestart(w: World, rows: seq<AlertRecord>, now: int)
    requires Sound(w) && Unique(w.table) && Enabled(w, Restart(rows, true, now))
    ensures Agree(Step(w, Restart(rows, true, now)))
  {
    var v := Step(w, Restart(rows, true, now));
    Hydrated(rows);
    hide Hydrate;
    forall id | id in v.table
      ensures Tracked(v, id)
    {
      assert RowOk(w, id);
      if Active(w.table[id]) && KeyOf(w.table[id]).Some? && w.table[id].ruleID != REGRESSION_RULE {
        var k := KeyOf(w.table[id]).value;
        assert w.table[id] in rows;
        assert k in v.states && Matches(w.table[id], k) && Matches(v.states[k].record.value, k);
      }
    }
  }

  /** Rows that are the records of their keys' states are one per key. */
  lemma AgreeUnique(w: World)
    requires Agree(w)
    ensures Unique(w.table)
  {
    assert forall id :: id in w.table ==> Tracked(w, id);
  }

  lemma AgreeForeign(w: World, row: AlertRecord, now: int)
    requires Sound(w) && Agree(w) && Enabled(w, Foreign(row, now))
    ensures Agree(Step(w, Foreign(row, now)))
  {
    var v := Step(w, Foreign(row, now));
    forall h | h in v.states
      ensures Backed(v, h)
    {
      assert Backed(w, h);
    }
    forall id | id in v.table
      ensures Tracked(v, id)
    {
      assert id in w.table ==> Tracked(w, id);
    }
  }

  lemma AgreeClock(w: World, now: int)
    requires Agree(w)
    ensures Agree(w.(clock := now))
  {
    var v := w.(clock := now);
    assert forall h :: h in v.states ==> Backed(w, h) ==> Backed(v, h);
    assert forall id :: id in v.table ==> Tracked(w, id) ==> Tracked(v, id);
  }

  lemma AgreeStep(w: World, e: Event)
    requires Sound(w) && Agree(w) && Enabled(w, e) && WritesSucceed(e)
    ensures Agree(Step(w, e))
  {
    match e
    case Observe(rule, s, breached, found, now, _) =>
      var k := SubjectKey(rule.id, s);
      var st := SeenState(w, k, now);
      if !breached {
        AgreeResolve(w, k, now, true);
      } else if st.firing && CooledDown(st, rule, now) {
        AgreeRenotify(w, k, rule, st, now);
      } else if !st.firing && DurationReached(st, rule, now) {
        AgreeFire(w, rule, s, st, found, now);
      } else {
        AgreeSeen(w, k, st);
      }
      AgreeClock(Act(w, e), now);
    case MarkNormal(k, now, _) =>
      AgreeResolve(w, k, now, true);
      AgreeClock(Act(w, e), now);
    case Stale(k, now, _) =>
      AgreeResolve(w, k, now, false);
      AgreeClock(Act(w, e), now);
    case Restart(rows, _, now) =>
      AgreeUnique(w);
      AgreeRestart(w, rows, now);
    case Foreign(row, now) => AgreeForeign(w, row, now);
  }

  lemma {:induction false} AgreeRun(events: seq<Event>)
    requires ValidRun(events) && AllSucceed(events)
    ensures Agree(Run(events))
  {
    if events != [] {
      AgreeRun(events[..|events| - 1]);
      SoundRun(events[..|events| - 1]);
      AgreeStep(Run(events[..|events| - 1]), events[|events| - 1]);
    }
  }

  /**
   * While writes succeed, after every step and across restarts, an evaluator key is firing in
   * memory exactly if the table has an active row for it, and then the two have the same ID.
   */
  lemma MemoryAgreesWithTable(events: seq<Event>, k: Key)
    requires ValidRun(events) && AllSucceed(events) && k.rule != REGRESSION_RULE
    ensures var w := Run(events);
            && ((k in w.states && w.states[k].firing) <==> exists id :: id in w.table && Matches(w.table[id], k))
            && (forall id :: id in w.table && Matches(w.table[id], k) ==>
                  k in w.states && w.states[k].record.Some? && w.states[k].record.value.id == id)
  {
    SoundRun(events);
    AgreeRun(events);
    var w := Run(events);
    hide Run;
    if k in w.states && w.states[k].firing {
      assert StateOk(w, k) && Backed(w, k);
    }
    forall id | id in w.table && Matches(w.table[id], k)
      ensures k in w.states && w.states[k].firing && w.states[k].record.Some? && w.states[k].record.value.id == id
    {
      assert Tracked(w, id);
    }
  }
}
