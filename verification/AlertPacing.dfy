/**
 * When the alert evaluator notifies: how far apart the messages about one alert are, also across
 * restarts and failing writes, and how long a breach lasts before it fires
 * (internal/dashboard/alerting/evaluator.go).
 */
module AlertPacing {
  import opened Prelude
  import opened AlertEngine

  // ---------------------------------------------------------------- notifications

  /** `b` may be sent after `a` about the same record. */
  predicate MayFollow(a: Notification, b: Notification) {
    && !a.kind.Recovered? && !b.kind.Fired?
    && (b.kind.Renotified? ==> Seconds(b.at) - Seconds(a.at) >= b.kind.cooldownMin * 60)
  }

  predicate Paced(sent: seq<Notification>) {
    forall i, j :: 0 <= i < j < |sent| && sent[i].id == sent[j].id ==> MayFollow(sent[i], sent[j])
  }

  /** No message about `id` is a recovery or later than second `t`. */
  predicate Covered(sent: seq<Notification>, id: AlertId, t: int) {
    forall i :: 0 <= i < |sent| && sent[i].id == Some(id) ==> !sent[i].kind.Recovered? && Seconds(sent[i].at) <= t
  }

  /** A firing state knows of every message about its record. */
  predicate StateNoted(w: World, k: Key)
    requires k in w.states
  {
    var st := w.states[k];
    st.record.Some? && st.notifiedAt.Some? ==> Covered(w.sent, st.record.value.id, Seconds(st.notifiedAt.value))
  }

  /** A message is about a record, whose ID is not handed out again. */
  predicate MessageOk(w: World, n: Notification) {
    && n.id.Some? && Used(w, n.id.value) && (n.id.value.ForeignId? ==> n.id.value in w.table) && n.at <= w.clock
  }

  predicate MessagesOk(w: World) {
    forall i :: 0 <= i < |w.sent| ==> MessageOk(w, w.sent[i])
  }

  predicate SameRecord(a: AlertState, b: AlertState) {
    a.record.Some? && b.record.Some? && a.record.value.id == b.record.value.id
  }

  /** No two states have the same record. */
  predicate OneStatePerRecord(w: World) {
    forall h, k :: h in w.states && k in w.states && SameRecord(w.states[h], w.states[k]) ==> h == k
  }

  predicate StatesNoted(w: World) {
    forall k :: k in w.states ==> StateNoted(w, k)
  }

  predicate Noted(w: World) {
    Paced(w.sent) && MessagesOk(w) && OneStatePerRecord(w) && StatesNoted(w)
  }

  /** The table's active rows know of every message about them too. */
  predicate RowsCovered(w: World) {
    forall id :: id in w.table && Active(w.table[id]) ==> Covered(w.sent, id, w.table[id].notifiedAt)
  }

  /** The state's record is a row, and the UPDATE of it fails. */
  predicate UpdateFails(w: World, k: Key, failing: set<AlertId>) {
    k in w.states && w.states[k].record.Some? && w.states[k].record.value.id in w.table
      && w.states[k].record.value.id in failing
  }

  /** The step sends a message about a row and fails to record it there: a recovery, or one in a later second. */
  predicate Behind(w: World, e: Event) {
    match e
    case Observe(rule, s, breached, _, now, failing) =>
      var k := SubjectKey(rule.id, s);
      && UpdateFails(w, k, failing)
      && (breached ==> w.states[k].firing && CooledDown(w.states[k], rule, now)
                       && w.table[w.states[k].record.value.id].notifiedAt < Seconds(now))
    case MarkNormal(k, _, failing) => UpdateFails(w, k, failing)
    case Stale(_, _, _) => false
    case Restart(_, _, _) => false
    case Foreign(_, _) => false
  }

  lemma SecondsMonotone(a: int, b: int, s: int)
    requires b - a >= Nanos(s)
    ensures Seconds(b) - Seconds(a) >= s
  {
  }

  // ---------------------------------------------------------------- one more message

  lemma PacedAppend(sent: seq<Notification>, n: Notification)
    requires Paced(sent) && forall i :: 0 <= i < |sent| && sent[i].id == n.id ==> MayFollow(sent[i], n)
    ensures Paced(sent + [n])
  {
  }

  lemma CoveredAppend(sent: seq<Notification>, n: Notification, id: AlertId, t: int)
    requires Covered(sent, id, t)
    ensures Covered(sent + [n], id, t) <==> (n.id == Some(id) ==> !n.kind.Recovered? && Seconds(n.at) <= t)
  {
    assert (sent + [n])[|sent|] == n;
    assert forall i :: 0 <= i < |sent| ==> (sent + [n])[i] == sent[i];
  }

  lemma CoveredLater(sent: seq<Notification>, id: AlertId, t: int, u: int)
    requires Covered(sent, id, t) && t <= u
    ensures Covered(sent, id, u)
  {
  }

  /** Nothing was ever sent about an ID that is not used yet. */
  lemma CoveredUnused(w: World, id: AlertId, t: int)
    requires MessagesOk(w) && (!Used(w, id) || (id.ForeignId? && id !in w.table))
    ensures Covered(w.sent, id, t) && forall i :: 0 <= i < |w.sent| ==> w.sent[i].id != Some(id)
  {
    assert forall i :: 0 <= i < |w.sent| ==> MessageOk(w, w.sent[i]);
  }

  /** Messages stay accounted for as time passes, IDs are handed out and rows are added. */
  lemma MessagesLater(w: World, v: World)
    requires MessagesOk(w) && w.sent <= v.sent && w.clock <= v.clock && w.table.Keys <= v.table.Keys
    requires (w.boot == v.boot && w.idCounter <= v.idCounter) || w.clock < v.boot
    requires forall i :: |w.sent| <= i < |v.sent| ==> MessageOk(v, v.sent[i])
    ensures MessagesOk(v)
  {
    forall i | 0 <= i < |v.sent|
      ensures MessageOk(v, v.sent[i])
    {
      assert i < |w.sent| ==> v.sent[i] == w.sent[i] && MessageOk(w, w.sent[i]);
    }
  }

  /** Everything sent so far lies before now. */
  lemma CoveredByNow(w: World, id: AlertId, t: int, now: int)
    requires MessagesOk(w) && Covered(w.sent, id, t) && w.clock <= now
    ensures Covered(w.sent, id, Seconds(now))
  {
    forall i | 0 <= i < |w.sent| && w.sent[i].id == Some(id)
      ensures !w.sent[i].kind.Recovered? && Seconds(w.sent[i].at) <= Seconds(now)
    {
      assert MessageOk(w, w.sent[i]);
      SecondsMonotone(w.sent[i].at, now, 0);
    }
  }

  // ---------------------------------------------------------------- resolving

  lemma ResolveStates(w: World, k: Key, now: int, failing: set<AlertId>, notify: bool)
    requires Noted(w)
    ensures var v := Resolve(w, k, now, failing, notify); OneStatePerRecord(v) && StatesNoted(v)
  {
    hide Covered, Paced, MessagesOk, Update;
    var v := Resolve(w, k, now, failing, notify);
    forall h | h in v.states
      ensures StateNoted(v, h)
    {
      assert StateNoted(w, h) && v.states[h] == w.states[h];
      var st := v.states[h];
      if v.sent != w.sent && st.record.Some? && st.notifiedAt.Some? {
        CoveredAppend(w.sent, Notification(Recovered, Some(w.states[k].record.value.id), now),
                      st.record.value.id, Seconds(st.notifiedAt.value));
      }
    }
  }

  lemma ResolveMessages(w: World, k: Key, now: int, failing: set<AlertId>, notify: bool)
    requires Sound(w) && Noted(w) && w.clock <= now
    ensures var v := Resolve(w, k, now, failing, notify).(clock := now); Paced(v.sent) && MessagesOk(v)
  {
    hide Paced, MessagesOk, OneStatePerRecord;
    var v := Resolve(w, k, now, failing, notify).(clock := now);
    if k in w.states && w.states[k].record.Some? && notify {
      assert StateOk(w, k) && StateNoted(w, k);
      var n := Notification(Recovered, Some(w.states[k].record.value.id), now);
      PacedAppend(w.sent, n);
      assert MessageOk(v, n) && v.sent[|w.sent|] == n;
    }
    MessagesLater(w, v);
  }

  lemma UpdateRow(t: Table, r: AlertRecord, failing: set<AlertId>, id: AlertId)
    ensures id in Update(t, r, failing) <==> id in t
    ensures id in t && (id != r.id || id in failing) ==> Update(t, r, failing)[id] == t[id]
    ensures id in t && id == r.id && id !in failing ==>
              Update(t, r, failing)[id].state == r.state && Update(t, r, failing)[id].notifiedAt == r.notifiedAt
  {
  }

  lemma ResolveRowsIff(w: World, k: Key, now: int, failing: set<AlertId>, notify: bool)
    requires Sound(w) && RowsCovered(w)
    ensures RowsCovered(Resolve(w, k, now, failing, notify)) <==> !(notify && UpdateFails(w, k, failing))
  {
    var v := Resolve(w, k, now, failing, notify);
    if k in w.states && w.states[k].record.Some? {
      assert StateOk(w, k);
      var r := w.states[k].record.value;
      var n := Notification(Recovered, Some(r.id), now);
      hide Covered, Sound, Update, StateOk;
      forall id | id in v.table && Active(v.table[id])
        ensures id in w.table && Active(w.table[id]) && v.table[id].notifiedAt == w.table[id].notifiedAt
        ensures id == r.id ==> UpdateFails(w, k, failing)
        ensures Covered(v.sent, id, v.table[id].notifiedAt) <==> !(notify && id == r.id)
      {
        UpdateRow(w.table, Resolved(r, now), failing, id);
        CoveredAppend(w.sent, n, id, v.table[id].notifiedAt);
      }
      if notify && UpdateFails(w, k, failing) {
        UpdateRow(w.table, Resolved(r, now), failing, r.id);
        assert r.id in v.table && Active(v.table[r.id]);
      }
    }
  }

  lemma NotedResolve(w: World, k: Key, now: int, failing: set<AlertId>, notify: bool)
    requires Sound(w) && Noted(w) && RowsCovered(w) && w.clock <= now
    ensures var v := Resolve(w, k, now, failing, notify).(clock := now);
            Noted(v) && (RowsCovered(v) <==> !(notify && UpdateFails(w, k, failing)))
  {
    ResolveStates(w, k, now, failing, notify);
    ResolveMessages(w, k, now, failing, notify);
    ResolveRowsIff(w, k, now, failing, notify);
    ClockKeepsNotes(Resolve(w, k, now, failing, notify), now);
    hide Paced, MessagesOk, Resolve, UpdateFails, Sound;
  }

  lemma ClockKeepsNotes(w: World, now: int)
    ensures StatesNoted(w) <==> StatesNoted(w.(clock := now))
    ensures OneStatePerRecord(w) <==> OneStatePerRecord(w.(clock := now))
    ensures RowsCovered(w) <==> RowsCovered(w.(clock := now))
  {
    hide Covered;
    var v := w.(clock := now);
    assert forall k :: k in w.states ==> (StateNoted(w, k) <==> StateNoted(v, k));
  }

  // ---------------------------------------------------------------- firing

  /** The record a state is given when it fires is no other state's. */
  lemma FireOneState(w: World, k: Key, st: AlertState, id: AlertId)
    requires Noted(w) && st.record.Some? && st.record.value.id == id
    requires forall h :: h in w.states && h != k && w.states[h].record.Some? ==> w.states[h].record.value.id != id
    ensures OneStatePerRecord(w.(states := w.states[k := st]))
  {
  }

  lemma NotedFireExisting(w: World, rule: Rule, s: Subject, st: AlertState, r: AlertRecord, now: int,
                          failing: set<AlertId>)
    requires Sound(w) && Noted(w) && RowsCovered(w) && w.clock <= now
             && IsFind(w.table, SubjectKey(rule.id, s), Some(r))
    ensures var v := Fire(w, rule, s, st, Some(r), now, failing).(clock := now);
            Noted(v) && RowsCovered(v)
  {
    var k := SubjectKey(rule.id, s);
    var u := Fire(w, rule, s, st, Some(r), now, failing);
    forall h | h in w.states && h != k && w.states[h].record.Some?
      ensures w.states[h].record.value.id != r.id
    {
      assert StateOk(w, h);
    }
    assert Seconds(Nanos(r.notifiedAt)) == r.notifiedAt;
    hide Sound, Covered, Paced;
    FireOneState(w, k, u.states[k], r.id);
    forall h | h in u.states
      ensures StateNoted(u, h)
    {
      assert h != k ==> StateNoted(w, h);
    }
    ClockKeepsNotes(u, now);
    MessagesLater(w, u.(clock := now));
  }

  lemma NotedFireNew(w: World, rule: Rule, s: Subject, st: AlertState, now: int, failing: set<AlertId>)
    requires Sound(w) && Noted(w) && RowsCovered(w) && w.clock <= now
    ensures var v := Fire(w, rule, s, st, None, now, failing).(clock := now);
            Noted(v) && RowsCovered(v)
  {
    var k, r := SubjectKey(rule.id, s), NewRecord(w, rule, s, now);
    var u := Fire(w, rule, s, st, None, now, failing);
    var n := Notification(Fired, Some(r.id), now);
    NewIdUnused(w, rule, s, now);
    CoveredUnused(w, r.id, Seconds(now));
    PacedAppend(w.sent, n);
    CoveredAppend(w.sent, n, r.id, Seconds(now));
    hide Covered, Paced, Sound;
    FireOneState(w, k, u.states[k], r.id);
    forall h | h in u.states
      ensures StateNoted(u, h)
    {
      if h != k {
        assert StateNoted(w, h);
        var sh := w.states[h];
        if sh.record.Some? && sh.notifiedAt.Some? {
          CoveredAppend(w.sent, n, sh.record.value.id, Seconds(sh.notifiedAt.value));
        }
      }
    }
    forall id | id in u.table && Active(u.table[id])
      ensures Covered(u.sent, id, u.table[id].notifiedAt)
    {
      if id in w.table {
        CoveredAppend(w.sent, n, id, w.table[id].notifiedAt);
      }
    }
    ClockKeepsNotes(u, now);
    assert MessageOk(u.(clock := now), n);
    MessagesLater(w, u.(clock := now));
  }

  lemma NewIdUnused(w: World, rule: Rule, s: Subject, now: int)
    requires Sound(w) && w.clock <= now
    ensures var id := NewRecord(w, rule, s, now).id;
            && !Used(w, id) && id !in w.table
            && forall h :: h in w.states && w.states[h].record.Some? ==> w.states[h].record.value.id != id
  {
    var id := NewRecord(w, rule, s, now).id;
    assert id in w.table ==> RowOk(w, id);
    forall h | h in w.states && w.states[h].record.Some?
      ensures w.states[h].record.value.id != id
    {
      assert StateOk(w, h);
    }
  }

  // ---------------------------------------------------------------- notifying again

  lemma RenotifyStates(w: World, k: Key, rule: Rule, st: AlertState, now: int, failing: set<AlertId>)
    requires Sound(w) && Noted(w) && w.clock <= now
    requires k in w.states && st.firing && st == w.states[k].(lastSeen := st.lastSeen)
    ensures var v := Renotify(w, k, rule, st, now, failing); OneStatePerRecord(v) && StatesNoted(v)
  {
    assert StateOk(w, k) && StateNoted(w, k);
    var v, r := Renotify(w, k, rule, st, now, failing), st.record.value;
    var n := Notification(Renotified(rule.cooldownMin), Some(r.id), now);
    CoveredByNow(w, r.id, Seconds(st.notifiedAt.value), now);
    CoveredAppend(w.sent, n, r.id, Seconds(now));
    hide Sound, Covered, Paced, MessagesOk, Update;
    forall h | h in v.states
      ensures StateNoted(v, h)
    {
      if h != k {
        assert StateNoted(w, h);
        var sh := w.states[h];
        if sh.record.Some? && sh.notifiedAt.Some? {
          CoveredAppend(w.sent, n, sh.record.value.id, Seconds(sh.notifiedAt.value));
        }
      }
    }
    FireOneState(w, k, v.states[k], r.id);
  }

  lemma RenotifyMessages(w: World, k: Key, rule: Rule, st: AlertState, now: int, failing: set<AlertId>)
    requires Sound(w) && Noted(w) && w.clock <= now
    requires k in w.states && st.firing && st == w.states[k].(lastSeen := st.lastSeen) && CooledDown(st, rule, now)
    ensures var v := Renotify(w, k, rule, st, now, failing).(clock := now); Paced(v.sent) && MessagesOk(v)
  {
    assert StateOk(w, k) && StateNoted(w, k);
    var v := Renotify(w, k, rule, st, now, failing).(clock := now);
    var n := Notification(Renotified(rule.cooldownMin), Some(st.record.value.id), now);
    SecondsMonotone(st.notifiedAt.value, now, rule.cooldownMin * 60);
    hide Paced, MessagesOk, OneStatePerRecord, StatesNoted;
    PacedAppend(w.sent, n);
    assert MessageOk(v, n) && v.sent[|w.sent|] == n;
    MessagesLater(w, v);
  }

  lemma RenotifyRowsIff(w: World, k: Key, rule: Rule, st: AlertState, now: int, failing: set<AlertId>)
    requires Sound(w) && MessagesOk(w) && RowsCovered(w) && w.clock <= now
    requires k in w.states && st.firing && st == w.states[k].(lastSeen := st.lastSeen)
    ensures RowsCovered(Renotify(w, k, rule, st, now, failing)) <==>
            !(UpdateFails(w, k, failing) && w.table[w.states[k].record.value.id].notifiedAt < Seconds(now))
  {
    assert StateOk(w, k);
    var v, r := Renotify(w, k, rule, st, now, failing), st.record.value;
    var r' := r.(notifiedAt := Seconds(now));
    var n := Notification(Renotified(rule.cooldownMin), Some(r.id), now);
    assert v.sent == w.sent + [n] && v.table == Update(w.table, r', failing);
    assert r.id in w.table ==> Active(w.table[r.id]);
    hide Covered, Sound, Update, StateOk, MessagesOk;
    forall id | id in v.table && Active(v.table[id])
      ensures Covered(v.sent, id, v.table[id].notifiedAt) <==>
              !(id == r.id && id in failing && w.table[id].notifiedAt < Seconds(now))
    {
      UpdateRow(w.table, r', failing, id);
      if id == r.id && id !in failing {
        CoveredByNow(w, id, w.table[id].notifiedAt, now);
        CoveredAppend(w.sent, n, id, Seconds(now));
      } else {
        CoveredAppend(w.sent, n, id, w.table[id].notifiedAt);
      }
    }
    UpdateRow(w.table, r', failing, r.id);
  }

  lemma NotedRenotify(w: World, k: Key, rule: Rule, st: AlertState, now: int, failing: set<AlertId>)
    requires Sound(w) && Noted(w) && RowsCovered(w) && w.clock <= now
    requires k in w.states && st.firing && st == w.states[k].(lastSeen := st.lastSeen) && CooledDown(st, rule, now)
    ensures var v := Renotify(w, k, rule, st, now, failing).(clock := now);
            Noted(v) && (RowsCovered(v) <==>
                         !(UpdateFails(w, k, failing) &&
                           w.table[w.states[k].record.value.id].notifiedAt < Seconds(now)))
  {
    RenotifyStates(w, k, rule, st, now, failing);
    RenotifyMessages(w, k, rule, st, now, failing);
    RenotifyRowsIff(w, k, rule, st, now, failing);
    ClockKeepsNotes(Renotify(w, k, rule, st, now, failing), now);
    hide Paced, MessagesOk, Renotify, UpdateFails, Sound, CooledDown;
  }

  // ---------------------------------------------------------------- the other steps

  lemma NotedSeen(w: World, k: Key, st: AlertState, now: int)
    requires Noted(w) && RowsCovered(w) && w.clock <= now
    requires if k in w.states then st == w.states[k].(lastSeen := st.lastSeen)
             else !st.firing && st.record.None? && st.notifiedAt.None?
    ensures var v := w.(states := w.states[k := st], clock := now); Noted(v) && RowsCovered(v)
  {
    hide Covered, Paced;
    var v := w.(states := w.states[k := st], clock := now);
    forall h | h in v.states
      ensures StateNoted(v, h)
    {
      assert h in w.states ==> StateNoted(w, h);
    }
    MessagesLater(w, v);
  }

  lemma NotedRestart(w: World, rows: seq<AlertRecord>, read: bool, now: int)
    requires Noted(w) && RowsCovered(w) && Enabled(w, Restart(rows, read, now))
    ensures var v := Step(w, Restart(rows, read, now)); Noted(v) && RowsCovered(v)
  {
    var v := Step(w, Restart(rows, read, now));
    Hydrated(rows);
    hide Hydrate, Covered, Paced;
    forall h | h in v.states
      ensures StateNoted(v, h)
    {
      var r := v.states[h].record.value;
      assert r in rows && Seconds(Nanos(r.notifiedAt)) == r.notifiedAt;
    }
    MessagesLater(w, v);
  }

  lemma NotedForeign(w: World, row: AlertRecord, now: int)
    requires Noted(w) && RowsCovered(w) && Enabled(w, Foreign(row, now))
    ensures var v := Step(w, Foreign(row, now)); Noted(v) && RowsCovered(v)
  {
    var v := Step(w, Foreign(row, now));
    if row.id !in w.table {
      CoveredUnused(w, row.id, row.notifiedAt);
    }
    hide Covered, Paced;
    assert forall h :: h in v.states ==> StateNoted(w, h);
    MessagesLater(w, v);
  }

  /**
   * Whatever fails, a step keeps the pacing; it leaves a row behind the messages about it exactly
   * if `Behind` says so.
   */
  lemma NotedStepIff(w: World, e: Event)
    requires Sound(w) && Noted(w) && RowsCovered(w) && Enabled(w, e)
    ensures Noted(Step(w, e)) && (RowsCovered(Step(w, e)) <==> !Behind(w, e))
  {
    hide Sound, Noted, RowsCovered, Resolve, Fire, Renotify;
    match e
    case Observe(rule, s, breached, found, now, failing) =>
      var k := SubjectKey(rule.id, s);
      var st := SeenState(w, k, now);
      if !breached {
        NotedResolve(w, k, now, failing, true);
      } else if st.firing && CooledDown(st, rule, now) {
        NotedRenotify(w, k, rule, st, now, failing);
      } else if !st.firing && DurationReached(st, rule, now) {
        if found.Some? {
          NotedFireExisting(w, rule, s, st, found.value, now, failing);
        } else {
          NotedFireNew(w, rule, s, st, now, failing);
        }
      } else {
        NotedSeen(w, k, st, now);
      }
    case MarkNormal(k, now, failing) => NotedResolve(w, k, now, failing, true);
    case Stale(k, now, failing) =>
      NotedResolve(w, k, now, failing, false);
      NotedIdle(w, now);
    case Restart(rows, read, now) => NotedRestart(w, rows, read, now);
    case Foreign(row, now) => NotedForeign(w, row, now);
  }

  lemma NotedIdle(w: World, now: int)
    requires Noted(w) && RowsCovered(w) && w.clock <= now
    ensures Noted(w.(clock := now)) && RowsCovered(w.(clock := now))
  {
    hide Paced;
    ClockKeepsNotes(w, now);
    MessagesLater(w, w.(clock := now));
  }

  // ---------------------------------------------------------------- pacing over whole runs

  ghost predicate NeverBehind(events: seq<Event>) {
    forall n :: 0 <= n < |events| ==> !Behind(Run(events[..n]), events[n])
  }

  lemma NeverBehindLast(events: seq<Event>)
    requires events != []
    ensures NeverBehind(events) <==>
            NeverBehind(events[..|events| - 1]) && !Behind(Run(events[..|events| - 1]), events[|events| - 1])
  {
    hide Behind, Run;
    var before := events[..|events| - 1];
    forall n | 0 <= n < |before|
      ensures before[..n] == events[..n] && before[n] == events[n]
    {
    }
  }

  /** Steps whose writes succeed leave no row behind. */
  lemma SucceedingNotBehind(w: World, e: Event)
    requires WritesSucceed(e)
    ensures !Behind(w, e)
  {
  }

  lemma {:induction false} NotedRun(events: seq<Event>)
    requires ValidRun(events) && NeverBehind(events)
    ensures Noted(Run(events)) && RowsCovered(Run(events))
  {
    if events != [] {
      var before := events[..|events| - 1];
      NeverBehindLast(events);
      hide Noted, RowsCovered, Behind, Step, Enabled;
      NotedRun(before);
      SoundRun(before);
      NotedStepIff(Run(before), events[|events| - 1]);
    }
  }

  /**
   * While no step leaves a row behind, of two messages about one alert record, in order: nothing
   * follows a recovery, the first message is never repeated, and a repeated one comes at least the
   * rule's cooldown, in whole seconds, after every earlier one, hydrated episodes included.
   */
  lemma NotificationsPaced(events: seq<Event>, i: nat, j: nat)
    requires ValidRun(events) && NeverBehind(events) && i < j < |Run(events).sent|
    requires Run(events).sent[i].id == Run(events).sent[j].id
    ensures var a, b := Run(events).sent[i], Run(events).sent[j];
            && !a.kind.Recovered? && !b.kind.Fired?
            && (b.kind.Renotified? ==> Seconds(b.at) - Seconds(a.at) >= b.kind.cooldownMin * 60)
  {
    NotedRun(events);
    hide Run, NeverBehind;
  }

  /** The run stays paced whatever happens next without a failing write. */
  ghost predicate StaysPaced(events: seq<Event>) {
    forall more :: AllSucceed(more) && ValidRun(events + more) ==> Paced(Run(events + more).sent)
  }

  lemma {:induction false} NeverBehindAfter(events: seq<Event>, more: seq<Event>)
    requires NeverBehind(events) && AllSucceed(more)
    ensures NeverBehind(events + more)
    decreases |more|
  {
    hide NeverBehind, Run, Behind;
    if more == [] {
      assert events + more == events;
    } else {
      var n := |more| - 1;
      var all := events + more;
      NeverBehindAfter(events, more[..n]);
      assert all[..|all| - 1] == events + more[..n] && all[|all| - 1] == more[n];
      NeverBehindLast(all);
      SucceedingNotBehind(Run(events + more[..n]), more[n]);
    }
  }

  /** A row listed last is what its key is loaded from. */
  lemma ListingEndingWith(t: Table, id: AlertId) returns (rows: seq<AlertRecord>)
    requires (forall i :: i in t ==> t[i].id == i) && id in t && Active(t[id])
    ensures IsListing(t, rows) && rows != [] && rows[|rows| - 1] == t[id]
  {
    rows := Listing(t, t.Keys) + [t[id]];
  }

  ghost function Listing(t: Table, ids: set<AlertId>): (rows: seq<AlertRecord>)
    requires ids <= t.Keys
    ensures forall i :: 0 <= i < |rows| ==> Active(rows[i]) && exists id :: id in ids && t[id] == rows[i]
    ensures forall id :: id in ids && Active(t[id]) ==> t[id] in rows
  {
    if ids == {} then [] else
    var id :| id in ids;
    if Active(t[id]) then Listing(t, ids - {id}) + [t[id]] else Listing(t, ids - {id})
  }

  /** After a restart that lists the active row `id` last, its key fires on from what the row says. */
  lemma Reloaded(w: World, id: AlertId, k: Key) returns (e: Event)
    requires Sound(w) && id in w.table && Matches(w.table[id], k)
    ensures Enabled(w, e) && WritesSucceed(e) && e.now == w.clock + 1
    ensures var v := Step(w, e);
            && v.sent == w.sent && k in v.states && v.states[k].firing && v.states[k].record == Some(w.table[id])
            && v.states[k].notifiedAt == Some(Nanos(w.table[id].notifiedAt)) && v.table == w.table
  {
    RowsNamed(w);
    var rows := ListingEndingWith(w.table, id);
    e := Restart(rows, true, w.clock + 1);
  }

  lemma RunTwoMore(events: seq<Event>, e: Event, f: Event)
    ensures Run(events + [e, f]) == Step(Step(Run(events), e), f)
    ensures ValidRun(events) && Enabled(Run(events), e) && Enabled(Step(Run(events), e), f) ==>
            ValidRun(events + [e, f])
  {
    hide Step, Enabled;
    var all := events + [e, f];
    var one := all[..|all| - 1];
    assert one == events + [e] && all[|all| - 1] == f;
    assert one[..|one| - 1] == events && one[|one| - 1] == e;
  }

  /** The last message and one after it about the same record that may not follow it. */
  lemma NotPaced(sent: seq<Notification>, n: Notification)
    requires sent != [] && sent[|sent| - 1].id == n.id && !MayFollow(sent[|sent| - 1], n)
    ensures !Paced(sent + [n])
  {
    var all := sent + [n];
    assert all[|sent| - 1] == sent[|sent| - 1] && all[|sent|] == n;
  }

  lemma ClockAfter(w: World, e: Event)
    ensures Step(w, e).clock == e.now
  {
  }

  lemma SecondRecovery(w: World, k: Key, id: AlertId, now: int)
    requires k in w.states && w.states[k].record.Some? && w.states[k].record.value.id == id && w.clock <= now
    ensures Step(w, MarkNormal(k, now, {})).sent == w.sent + [Notification(Recovered, Some(id), now)]
    ensures Enabled(w, MarkNormal(k, now, {}))
  {
  }

  /** A recovery that was not recorded is followed, after a restart, by another one. */
  lemma RecoversTwice(w: World, id: AlertId, k: Key) returns (e: Event, f: Event)
    requires Sound(w) && id in w.table && Matches(w.table[id], k)
    requires w.sent != [] && w.sent[|w.sent| - 1].id == Some(id) && w.sent[|w.sent| - 1].kind.Recovered?
    ensures Enabled(w, e) && Enabled(Step(w, e), f) && WritesSucceed(e) && WritesSucceed(f)
    ensures !Paced(Step(Step(w, e), f).sent)
  {
    RowsNamed(w);
    hide Sound, Paced, Step, Enabled;
    e := Reloaded(w, id, k);
    ClockAfter(w, e);
    f := MarkNormal(k, e.now, {});
    SecondRecovery(Step(w, e), k, id, e.now);
    NotPaced(Step(w, e).sent, Notification(Recovered, Some(id), e.now));
  }

  lemma AnotherMessage(w: World, s: Subject, id: AlertId, rule: Rule, now: int)
    requires rule.id != REGRESSION_RULE && ValidSubject(s) && w.clock <= now
    requires var k := SubjectKey(rule.id, s);
             k in w.states && w.states[k].firing && w.states[k].record.Some? && w.states[k].record.value.id == id
             && CooledDown(w.states[k], rule, now)
    ensures var e := Observe(rule, s, true, None, now, {});
            && Enabled(w, e) && WritesSucceed(e)
            && Step(w, e).sent == w.sent + [Notification(Renotified(rule.cooldownMin), Some(id), now)]
  {
  }

  /** A message that was not recorded is followed, after a restart, by one sent too early. */
  lemma RenotifiesEarly(w: World, id: AlertId, rule: Rule, s: Subject) returns (e: Event, f: Event)
    requires Sound(w) && rule.id != REGRESSION_RULE && ValidSubject(s)
    requires id in w.table && Matches(w.table[id], SubjectKey(rule.id, s))
    requires w.sent != [] && w.sent[|w.sent| - 1].id == Some(id)
    requires Seconds(w.sent[|w.sent| - 1].at) > w.table[id].notifiedAt
    ensures Enabled(w, e) && Enabled(Step(w, e), f) && WritesSucceed(e) && WritesSucceed(f)
    ensures !Paced(Step(Step(w, e), f).sent)
  {
    RowsNamed(w);
    hide Sound, Paced, Step, Enabled;
    e := Reloaded(w, id, SubjectKey(rule.id, s));
    ClockAfter(w, e);
    var second := w.table[id].notifiedAt;
    var minutes := LateEnough(e.now, second);
    var now, again := Nanos(second + minutes * 60), Rule(rule.id, 0, minutes);
    f := Observe(again, s, true, None, now, {});
    AnotherMessage(Step(w, e), s, id, again, now);
    NotPaced(Step(w, e).sent, Notification(Renotified(minutes), Some(id), now));
  }

  lemma LateEnough(now: int, second: int) returns (minutes: nat)
    ensures now <= Nanos(second + minutes * 60)
  {
    minutes := if Seconds(now) >= second then Seconds(now) - second + 1 else 1;
  }

  /** After a step that leaves a row behind, pacing can be broken without any further failure. */
  lemma BehindBreaks(events: seq<Event>) returns (more: seq<Event>)
    requires events != [] && ValidRun(events)
    requires Behind(Run(events[..|events| - 1]), events[|events| - 1])
    ensures AllSucceed(more) && ValidRun(events + more) && !Paced(Run(events + more).sent)
  {
    var w, e := Run(events[..|events| - 1]), events[|events| - 1];
    SoundRun(events[..|events| - 1]);
    SoundRun(events);
    var k := if e.Observe? then SubjectKey(e.rule.id, e.subject) else e.key;
    var id := w.states[k].record.value.id;
    assert StateOk(w, k);
    BehindLeaves(w, e, k, id);
    RunLast(events);
    hide Run, Behind, StateOk, Sound, Step, Paced, ValidRun;
    var f, g;
    if e.Observe? && e.breached {
      assert e.rule.id != REGRESSION_RULE && ValidSubject(e.subject);
      f, g := RenotifiesEarly(Run(events), id, e.rule, e.subject);
    } else {
      f, g := RecoversTwice(Run(events), id, k);
    }
    RunTwoMore(events, f, g);
    more := [f, g];
  }

  lemma RunLast(events: seq<Event>)
    requires events != [] && ValidRun(events)
    ensures var w, e := Run(events[..|events| - 1]), events[|events| - 1];
            Run(events) == Step(w, e) && Enabled(w, e)
  {
    hide Step, Enabled;
  }

  /** What such a step leaves: an active row, and a last message about it that the row does not know of. */
  lemma BehindLeaves(w: World, e: Event, k: Key, id: AlertId)
    requires Behind(w, e) && k == (if e.Observe? then SubjectKey(e.rule.id, e.subject) else e.key)
    requires k in w.states && StateOk(w, k) && w.states[k].record.Some? && w.states[k].record.value.id == id
    ensures var v := Step(w, e);
            && id in v.table && Matches(v.table[id], k)
            && v.sent != [] && v.sent[|v.sent| - 1].id == Some(id)
            && (if e.Observe? && e.breached then Seconds(v.sent[|v.sent| - 1].at) > v.table[id].notifiedAt
                else v.sent[|v.sent| - 1].kind.Recovered?)
  {
  }

  /**
   * Over every run, whatever fails: at each of its moments the messages stay paced through everything
   * that can follow without a failing write, if and only if no step leaves a row behind.
   */
  lemma StaysPacedIff(events: seq<Event>)
    requires ValidRun(events)
    ensures (forall n :: 0 <= n <= |events| ==> StaysPaced(events[..n])) <==> NeverBehind(events)
  {
    hide *;
    if NeverBehind(events) {
      forall n | 0 <= n <= |events|
        ensures StaysPaced(events[..n])
      {
        NeverBehindPrefix(events, n);
        StaysPacedIfNeverBehind(events[..n]);
      }
    } else {
      var n := BrokenAfter(events);
    }
  }

  lemma BrokenAfter(events: seq<Event>) returns (n: nat)
    requires ValidRun(events) && !NeverBehind(events)
    ensures n <= |events| && !StaysPaced(events[..n])
  {
    var m :| 0 <= m < |events| && Behind(Run(events[..m]), events[m]);
    n := m + 1;
    var until := events[..n];
    assert until[..|until| - 1] == events[..m] && until[|until| - 1] == events[m];
    ValidPrefix(events, n);
    hide Run, Behind, NeverBehind, ValidRun, Paced;
    var more := BehindBreaks(until);
  }

  lemma NeverBehindPrefix(events: seq<Event>, n: nat)
    requires n <= |events| && NeverBehind(events)
    ensures NeverBehind(events[..n])
  {
    hide Behind, Run;
    forall m | 0 <= m < n
      ensures !Behind(Run(events[..n][..m]), events[..n][m])
    {
      assert events[..n][..m] == events[..m];
    }
  }

  lemma StaysPacedIfNeverBehind(events: seq<Event>)
    requires NeverBehind(events)
    ensures StaysPaced(events)
  {
    hide Run, NeverBehind, Paced;
    forall more | AllSucceed(more) && ValidRun(events + more)
      ensures Paced(Run(events + more).sent)
    {
      NeverBehindAfter(events, more);
      NotedRun(events + more);
    }
  }

  lemma {:induction false} ValidPrefix(events: seq<Event>, n: nat)
    requires ValidRun(events) && n <= |events|
    ensures ValidRun(events[..n])
    decreases |events|
  {
    if n == |events| {
      assert events[..n] == events;
    } else {
      hide Enabled, Run;
      ValidPrefix(events[..|events| - 1], n);
      assert events[..|events| - 1][..n] == events[..n];
    }
  }

  // ---------------------------------------------------------------- recoveries

  lemma NotificationsHaveRecords(w: World, e: Event)
    requires Sound(w) && forall i :: 0 <= i < |w.sent| ==> w.sent[i].id.Some?
    ensures forall i :: 0 <= i < |Step(w, e).sent| ==> Step(w, e).sent[i].id.Some?
  {
    if e.Observe? && SubjectKey(e.rule.id, e.subject) in w.states {
      assert StateOk(w, SubjectKey(e.rule.id, e.subject));
    }
  }

  /** Over every run, whatever fails, every message, a recovery included, is about an alert record. */
  lemma {:induction false} EveryMessageHasRecord(events: seq<Event>)
    requires ValidRun(events)
    ensures forall i :: 0 <= i < |Run(events).sent| ==> Run(events).sent[i].id.Some?
  {
    if events != [] {
      EveryMessageHasRecord(events[..|events| - 1]);
      SoundRun(events[..|events| - 1]);
      NotificationsHaveRecords(Run(events[..|events| - 1]), events[|events| - 1]);
      hide Step;
    }
  }

  /**
   * While no step leaves a row behind, the record a recovery is about is not an active row; while all
   * writes succeed, it is a resolved one.
   */
  lemma RecoveryHasResolvedRecord(events: seq<Event>, i: nat)
    requires ValidRun(events) && NeverBehind(events)
    requires i < |Run(events).sent| && Run(events).sent[i].kind.Recovered?
    ensures var n, t := Run(events).sent[i], Run(events).table;
            && n.id.Some?
            && (n.id.value in t ==> t[n.id.value].state == RecordResolved)
            && (AllSucceed(events) ==> n.id.value in t)
  {
    NotedRun(events);
    assert MessageOk(Run(events), Run(events).sent[i]);
    if AllSucceed(events) {
      MessagesHaveRows(events);
    }
    hide Run;
  }

  /** While writes succeed every message is about a row. */
  lemma {:induction false} MessagesHaveRows(events: seq<Event>)
    requires ValidRun(events) && AllSucceed(events)
    ensures forall i :: 0 <= i < |Run(events).sent| ==>
              Run(events).sent[i].id.Some? && Run(events).sent[i].id.value in Run(events).table
  {
    if events != [] {
      var before := events[..|events| - 1];
      MessagesHaveRows(before);
      SoundRun(before);
      AgreeRun(before);
      RowsForStep(Run(before), events[|events| - 1]);
      hide Step;
    }
  }

  lemma RowsForStep(w: World, e: Event)
    requires Sound(w) && Agree(w) && WritesSucceed(e)
    requires forall i :: 0 <= i < |w.sent| ==> w.sent[i].id.Some? && w.sent[i].id.value in w.table
    ensures var v := Step(w, e);
            forall i :: 0 <= i < |v.sent| ==> v.sent[i].id.Some? && v.sent[i].id.value in v.table
  {
    if e.Observe? && SubjectKey(e.rule.id, e.subject) in w.states {
      assert StateOk(w, SubjectKey(e.rule.id, e.subject)) && Backed(w, SubjectKey(e.rule.id, e.subject));
    }
    if e.MarkNormal? && e.key in w.states {
      assert StateOk(w, e.key) && Backed(w, e.key);
    }
  }

  // ---------------------------------------------------------------- episodes in memory

  /** The messages sent about a key since its state was begun or loaded; none when it has no state. */
  function Episode(events: seq<Event>, k: Key): seq<Notification> {
    if events == [] then [] else
    var n := |events| - 1;
    var w, v := Run(events[..n]), Run(events);
    if events[n].Restart? || k !in v.states then [] else
    Episode(events[..n], k) + if Observes(events[n], k) then v.sent[|w.sent|..] else []
  }

  /** Of two messages of one episode: the later one repeats, at least its cooldown after the earlier one. */
  predicate MayRepeat(a: Notification, b: Notification) {
    a.id == b.id && !a.kind.Recovered? && b.kind.Renotified? && b.at - a.at >= Nanos(b.kind.cooldownMin * 60)
  }

  /** An episode's messages are paced, about the state's record, and none is later than the state says. */
  predicate EpisodeOk(w: World, k: Key, episode: seq<Notification>) {
    && (forall i, j :: 0 <= i < j < |episode| ==> MayRepeat(episode[i], episode[j]))
    && (k in w.states && w.states[k].firing ==>
          forall i :: 0 <= i < |episode| ==>
            && w.states[k].record.Some? && episode[i].id == Some(w.states[k].record.value.id)
            && !episode[i].kind.Recovered? && w.states[k].notifiedAt.Some?
            && episode[i].at <= w.states[k].notifiedAt.value && episode[i].at <= w.clock)
    && (k in w.states && w.states[k].firing && episode != [] ==>
          w.states[k].notifiedAt == Some(episode[|episode| - 1].at))
    && (!(k in w.states && w.states[k].firing) ==> episode == [])
  }

  /** What one breached observation of the key does to its episode. */
  lemma EpisodeObserved(w: World, e: Event, k: Key, episode: seq<Notification>)
    requires Sound(w) && EpisodeOk(w, k, episode) && Observes(e, k) && e.breached && w.clock <= e.now
    ensures k in Step(w, e).states && |w.sent| <= |Step(w, e).sent|
    ensures EpisodeOk(Step(w, e), k, episode + Step(w, e).sent[|w.sent|..])
  {
    var v := Step(w, e);
    if k in w.states {
      assert StateOk(w, k);
    }
    hide Sound, StateOk;
    var st := SeenState(w, k, e.now);
    var added := v.sent[|w.sent|..];
    if st.firing && CooledDown(st, e.rule, e.now) {
      var n := Notification(Renotified(e.rule.cooldownMin), Some(st.record.value.id), e.now);
      assert added == [n];
    } else if !st.firing && DurationReached(st, e.rule, e.now) {
      assert |added| <= 1;
    } else {
      assert added == [];
    }
  }

  /**
   * Over every run, whatever fails, within one episode in memory every message but the first repeats
   * it, at least the rule's cooldown after each earlier one, to the nanosecond.
   */
  lemma {:induction false} EpisodePaced(events: seq<Event>, k: Key)
    requires ValidRun(events)
    ensures EpisodeOk(Run(events), k, Episode(events, k))
  {
    if events != [] {
      var n := |events| - 1;
      var w, e := Run(events[..n]), events[n];
      EpisodePaced(events[..n], k);
      SoundRun(events[..n]);
      if !e.Restart? && k in Run(events).states {
        EpisodeStep(w, e, k, Episode(events[..n], k));
      }
    }
  }

  lemma EpisodeStep(w: World, e: Event, k: Key, episode: seq<Notification>)
    requires Sound(w) && EpisodeOk(w, k, episode) && Enabled(w, e) && !e.Restart? && k in Step(w, e).states
    ensures |w.sent| <= |Step(w, e).sent|
    ensures EpisodeOk(Step(w, e), k, episode + if Observes(e, k) then Step(w, e).sent[|w.sent|..] else [])
  {
    if Observes(e, k) {
      EpisodeObserved(w, e, k, episode);
    } else {
      KeptState(w, e, k);
      SentGrows(w, e);
      assert episode + [] == episode;
      hide Step, Sound;
    }
  }

  /** A state that a step which does not observe its key leaves is as it was. */
  lemma KeptState(w: World, e: Event, k: Key)
    requires !e.Restart? && !Observes(e, k) && k in Step(w, e).states
    ensures k in w.states && Step(w, e).states[k] == w.states[k]
    ensures Step(w, e).clock == e.now
  {
  }

  lemma SentGrows(w: World, e: Event)
    ensures |w.sent| <= |Step(w, e).sent|
  {
  }

  // ---------------------------------------------------------------- pending to firing

  /** An unbroken run of breached observations of one key: when it began and its latest observation. */
  datatype Streak = Streak(first: int, last: int)

  predicate Observes(e: Event, k: Key) {
    e.Observe? && SubjectKey(e.rule.id, e.subject) == k
  }

  /** Anything that ends a streak, apart from going unobserved for too long. */
  predicate Breaks(e: Event, k: Key) {
    (Observes(e, k) && !e.breached) || (e.MarkNormal? && e.key == k) || e.Restart?
  }

  function StreakOf(events: seq<Event>, k: Key): Option<Streak> {
    if events == [] then None else
    var e, before := events[|events| - 1], StreakOf(events[..|events| - 1], k);
    if Breaks(e, k) then None else
    if Observes(e, k) then Some(Streak(if before.Some? then before.value.first else e.now, e.now)) else
    if e.Stale? && e.key == k && before.Some? && before.value.last < e.now - STALE_AFTER then None else
    before
  }

  /** Since a streak began, every observation of the key was breached and nothing broke it. */
  lemma {:induction false} StreakUnbroken(events: seq<Event>, k: Key)
    requires StreakOf(events, k).Some?
    ensures exists i :: 0 <= i < |events| && Observes(events[i], k) && events[i].breached
                        && events[i].now == StreakOf(events, k).value.first
                        && forall j :: i <= j < |events| ==> !Breaks(events[j], k)
  {
    var n := |events| - 1;
    var before := StreakOf(events[..n], k);
    if before.Some? {
      StreakUnbroken(events[..n], k);
      var i :| 0 <= i < n && Observes(events[i], k) && events[i].breached && events[i].now == before.value.first
               && forall j :: i <= j < n ==> !Breaks(events[..n][j], k);
      assert forall j :: i <= j < |events| ==> !Breaks(events[j], k);
    } else {
      assert Observes(events[n], k) && events[n].breached;
    }
  }

  /** The evaluator's memory of a key follows the key's streak. */
  predicate Follows(w: World, k: Key, streak: Option<Streak>) {
    if k !in w.states then streak.None?
    else if w.states[k].firing then streak.Some? ==> streak.value.last == w.states[k].lastSeen
    else streak == Some(Streak(w.states[k].firstSeen, w.states[k].lastSeen))
  }

  /** A step leaves other keys' states alone, unless it replaces all of them. */
  lemma OthersUntouched(w: World, e: Event, k: Key)
    requires !e.Restart? && !Observes(e, k) && !(e.MarkNormal? && e.key == k) && !(e.Stale? && e.key == k)
    ensures k in Step(w, e).states <==> k in w.states
    ensures k in w.states ==> Step(w, e).states[k] == w.states[k]
  {
  }

  lemma {:induction false} FollowsStreak(events: seq<Event>, k: Key)
    ensures Follows(Run(events), k, StreakOf(events, k))
  {
    if events != [] {
      var n := |events| - 1;
      var w, e := Run(events[..n]), events[n];
      FollowsStreak(events[..n], k);
      if e.Restart? {
        Hydrated(e.rows);
      } else if !Observes(e, k) && !(e.MarkNormal? && e.key == k) && !(e.Stale? && e.key == k) {
        OthersUntouched(w, e, k);
      }
    }
  }

  /**
   * Without a restart, a key starts firing exactly at a breached observation that ends an unbroken run
   * of breached observations lasting at least the rule's duration.
   */
  lemma FiresIff(events: seq<Event>, e: Event, k: Key)
    requires var w := Run(events); !(k in w.states && w.states[k].firing)
    requires !e.Restart?
    ensures var v, streak := Run(events + [e]), StreakOf(events + [e], k);
            (k in v.states && v.states[k].firing) <==>
            (Observes(e, k) && e.breached && streak.Some? && streak.value.last == e.now
             && e.now - streak.value.first >= e.rule.durationSec * 1_000_000_000)
  {
    var w := Run(events);
    assert (events + [e])[..|events|] == events;
    FollowsStreak(events, k);
    if !Observes(e, k) && !(e.MarkNormal? && e.key == k) && !(e.Stale? && e.key == k) {
      OthersUntouched(w, e, k);
    }
  }
}
