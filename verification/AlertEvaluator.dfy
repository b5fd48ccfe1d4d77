/**
 * The alerts table and the evaluator that updates states and records step by step
 * (internal/store/alert_store.go, internal/dashboard/alerting/evaluator.go).
 */
module AlertEvaluator {
  import opened Prelude
  import opened AlertEngine

  // ---------------------------------------------------------------- the store

  class AlertStore {
    var rows: Table

    constructor ()
      ensures rows == map[]
    {
      rows := map[];
    }

    method CreateAlert(r: AlertRecord, failing: set<AlertId>) returns (ok: bool)
      modifies this
      ensures rows == Create(old(rows), r, failing)
      ensures ok <==> r.id !in old(rows) && r.id !in failing
    {
      ok := r.id !in rows && r.id !in failing;
      if ok {
        rows := rows[r.id := r];
      }
    }

    /** Succeeds without effect when the row does not exist. */
    method UpdateAlert(r: AlertRecord, failing: set<AlertId>) returns (ok: bool)
      modifies this
      ensures rows == Update(old(rows), r, failing)
      ensures ok <==> r.id !in failing
    {
      ok := r.id !in failing;
      if ok && r.id in rows {
        rows := rows[r.id := rows[r.id].(
          state := r.state, firedAt := r.firedAt, resolvedAt := r.resolvedAt, notifiedAt := r.notifiedAt)];
      }
    }

    /** GetActiveAlertByRuleAndNode and GetActiveAlertByRuleAndServer; the query may fail. */
    method GetActiveAlert(k: Key) returns (found: Option<AlertRecord>, ok: bool)
      requires forall id :: id in rows ==> rows[id].id == id
      ensures if ok then IsFind(rows, k, found) else found == None
    {
      ok := *;
      if !ok {
        return None, false;
      }
      var ids := rows.Keys;
      while ids != {}
        invariant ids <= rows.Keys && forall id :: id in rows && id !in ids ==> !Matches(rows[id], k)
      {
        var id :| id in ids;
        ids := ids - {id};
        if Matches(rows[id], k) {
          return Some(rows[id]), true;
        }
      }
      return None, true;
    }

    method ListActiveAlerts() returns (list: seq<AlertRecord>, ok: bool)
      requires forall id :: id in rows ==> rows[id].id == id
      ensures if ok then IsListing(rows, list) else list == []
    {
      ok := *;
      if !ok {
        return [], false;
      }
      list := [];
      var ids := rows.Keys;
      while ids != {}
        invariant ids <= rows.Keys
        invariant forall i :: 0 <= i < |list| ==> list[i].id in rows && rows[list[i].id] == list[i] && Active(list[i])
        invariant forall id :: id in rows && id !in ids && Active(rows[id]) ==> rows[id] in list
      {
        var id :| id in ids;
        ids := ids - {id};
        if Active(rows[id]) {
          list := list + [rows[id]];
        }
      }
    }
  }

  // ---------------------------------------------------------------- the evaluator

  function ExpireAll(w: World, keys: seq<Key>, now: int, failing: set<AlertId>): World {
    if keys == [] then w
    else Step(ExpireAll(w, keys[..|keys| - 1], now, failing), Stale(keys[|keys| - 1], now, failing))
  }

  lemma Overwritten(states: States, k: Key, a: AlertState, b: AlertState)
    ensures states[k := a][k := b] == states[k := b]
  {
  }

  /** Firing and renotifying overwrite the key's state. */
  lemma FireOverwrites(w: World, rule: Rule, s: Subject, st: AlertState, found: Option<AlertRecord>, now: int,
                       failing: set<AlertId>)
    ensures var k := SubjectKey(rule.id, s);
            Fire(w.(states := w.states[k := st]), rule, s, st, found, now, failing)
              == Fire(w, rule, s, st, found, now, failing)
  {
    var k := SubjectKey(rule.id, s);
    Overwritten(w.states, k, st, Fire(w, rule, s, st, found, now, failing).states[k]);
  }

  lemma NotBreached(w: World, rule: Rule, s: Subject, found: Option<AlertRecord>, now: int, failing: set<AlertId>)
    ensures Process(w, rule, s, false, found, now, failing) == Resolve(w, SubjectKey(rule.id, s), now, failing, true)
  {
  }

  lemma RenotifyOverwrites(w: World, k: Key, rule: Rule, st: AlertState, now: int, failing: set<AlertId>)
    ensures Renotify(w.(states := w.states[k := st]), k, rule, st, now, failing)
            == Renotify(w, k, rule, st, now, failing)
  {
    Overwritten(w.states, k, st, Renotify(w, k, rule, st, now, failing).states[k]);
  }

  class Evaluator {
    const alertStore: AlertStore
    var states: States
    var idCounter: nat
    var sent: seq<Notification>
    ghost var boot: int
    ghost var clock: int

    ghost function View(): World
      reads this, alertStore
    {
      World(states, alertStore.rows, idCounter, sent, boot, clock)
    }

    ghost predicate Valid()
      reads this, alertStore
    {
      Sound(View())
    }

    constructor (alertStore: AlertStore)
      requires alertStore.rows == map[]
      ensures View() == FRESH && Valid() && this.alertStore == alertStore
    {
      this.alertStore := alertStore;
      states, idCounter, sent, boot, clock := map[], 0, [], 0, 0;
    }

    /** A new process: the states are what the table says is active. */
    method HydrateFromDB(now: int) returns (ghost rows: seq<AlertRecord>, ghost read: bool)
      requires Valid() && clock < now
      modifies this
      ensures Enabled(old(View()), Restart(rows, read, now))
      ensures Valid() && View() == Step(old(View()), Restart(rows, read, now))
    {
      RowsNamed(View());
      hide Sound;
      var alerts, ok := alertStore.ListActiveAlerts();
      rows, read := alerts, ok;
      SoundStep(View(), Restart(rows, read, now));
      states, idCounter, boot, clock := map[], 0, now, now;
      for i := 0 to |alerts|
        invariant states == Hydrate(alerts[..i])
        invariant idCounter == 0 && boot == now && clock == now && sent == old(sent)
      {
        assert alerts[..i + 1][..i] == alerts[..i];
        var a := alerts[i];
        var k := KeyOf(a);
        if k.None? {
          continue;
        }
        states := states[k.value :=
                         AlertState(Nanos(a.firedAt), Nanos(a.createdAt), true, Some(Nanos(a.notifiedAt)), Some(a))];
      }
      assert alerts[..|alerts|] == alerts;
    }

    method ProcessResult(rule: Rule, s: Subject, breached: bool, now: int, failing: set<AlertId>)
      returns (ghost found: Option<AlertRecord>)
      requires Valid() && clock <= now && rule.id != REGRESSION_RULE && ValidSubject(s)
      modifies this, alertStore
      ensures Enabled(old(View()), Observe(rule, s, breached, found, now, failing))
      ensures Valid() && View() == Step(old(View()), Observe(rule, s, breached, found, now, failing))
    {
      RowsNamed(View());
      hide Sound, Resolve, Process;
      found := None;
      ghost var before := View();
      if breached {
        found := ProcessBreach(rule, s, now, failing);
      } else {
        ResolveAlert(SubjectKey(rule.id, s), now, failing, true);
        NotBreached(before, rule, s, found, now, failing);
      }
      SoundStep(before, Observe(rule, s, breached, found, now, failing));
      clock := now;
    }

    method ProcessBreach(rule: Rule, s: Subject, now: int, failing: set<AlertId>)
      returns (ghost found: Option<AlertRecord>)
      requires forall id :: id in alertStore.rows ==> alertStore.rows[id].id == id
      modifies this`states, this`idCounter, this`sent, alertStore
      ensures MayFind(old(alertStore.rows), SubjectKey(rule.id, s), found)
      ensures View() == Process(old(View()), rule, s, true, found, now, failing)
    {
      hide Fire, Renotify;
      var k := SubjectKey(rule.id, s);
      found := None;
      ghost var before := View();
      if k !in states {
        states := states[k := AlertState(now, now, false, None, None)];
      }
      states := states[k := states[k].(lastSeen := now)];
      var st := states[k];
      assert st == SeenState(before, k, now) && states == before.states[k := st];
      if !st.firing {
        if now - st.firstSeen >= Nanos(rule.durationSec) {
          found := FireAlert(rule, s, now, failing);
          FireOverwrites(before, rule, s, st, found, now, failing);
        }
      } else if st.notifiedAt.Some? && now - st.notifiedAt.value >= Nanos(rule.cooldownMin * 60) {
        RenotifyAlert(k, rule, now, failing);
        RenotifyOverwrites(before, k, rule, st, now, failing);
      }
    }

    method FireAlert(rule: Rule, s: Subject, now: int, failing: set<AlertId>) returns (ghost found: Option<AlertRecord>)
      requires SubjectKey(rule.id, s) in states && forall id :: id in alertStore.rows ==> alertStore.rows[id].id == id
      modifies this`states, this`idCounter, this`sent, alertStore
      ensures MayFind(old(alertStore.rows), SubjectKey(rule.id, s), found)
      ensures View() == Fire(old(View()), rule, s, old(states)[SubjectKey(rule.id, s)], found, now, failing)
    {
      var k := SubjectKey(rule.id, s);
      var st := states[k].(firing := true);
      var existing, _ := alertStore.GetActiveAlert(k);
      found := existing;
      if existing.Some? {
        states := states[k := st.(record := existing, notifiedAt := Some(Nanos(existing.value.notifiedAt)))];
        return;
      }
      var id := EvaluatorId(now, idCounter);
      idCounter := idCounter + 1;
      var record := AlertRecord(id, rule.id, if s.Node? then s.nodeID else "", s.serverID,
                                RecordFiring, Seconds(now), 0, Seconds(now), Seconds(now));
      var _ := alertStore.CreateAlert(record, failing);
      states := states[k := st.(record := Some(record), notifiedAt := Some(now))];
      sent := sent + [Notification(Fired, Some(id), now)];
    }

    method RenotifyAlert(k: Key, rule: Rule, now: int, failing: set<AlertId>)
      requires k in states
      modifies this`states, this`sent, alertStore
      ensures View() == Renotify(old(View()), k, rule, old(states)[k], now, failing)
    {
      var st := states[k];
      var id := if st.record.Some? then Some(st.record.value.id) else None;
      sent := sent + [Notification(Renotified(rule.cooldownMin), id, now)];
      st := st.(notifiedAt := Some(now));
      if st.record.Some? {
        st := st.(record := Some(st.record.value.(notifiedAt := Seconds(now))));
        var _ := alertStore.UpdateAlert(st.record.value, failing);
      }
      states := states[k := st];
    }

    /** Resolves the key's alert, if any, and forgets its state. */
    method ResolveAlert(k: Key, now: int, failing: set<AlertId>, notify: bool)
      modifies this`states, this`sent, alertStore
      ensures states == old(states) - {k}
      ensures View() == Resolve(old(View()), k, now, failing, notify)
    {
      if k in states && states[k].record.Some? {
        var r := states[k].record.value.(state := RecordResolved, resolvedAt := Seconds(now));
        var _ := alertStore.UpdateAlert(r, failing);
        if notify {
          sent := sent + [Notification(Recovered, Some(r.id), now)];
        }
      }
      states := states - {k};
    }

    method MarkKeyNormal(k: Key, now: int, failing: set<AlertId>)
      requires Valid() && clock <= now
      modifies this, alertStore
      ensures Valid() && View() == Step(old(View()), MarkNormal(k, now, failing))
    {
      SoundStep(View(), MarkNormal(k, now, failing));
      ResolveAlert(k, now, failing, true);
      clock := now;
    }

    /** After it, no state has gone unobserved for more than five minutes. */
    method ResolveStaleAlerts(now: int, failing: set<AlertId>) returns (ghost order: seq<Key>)
      requires Valid() && clock <= now
      modifies this, alertStore
      ensures forall k :: k in order <==> k in old(states)
      ensures Valid() && View() == ExpireAll(old(View()), order, now, failing).(clock := now)
      ensures forall k :: k in states ==>
              k in old(states) && states[k] == old(states)[k] && states[k].lastSeen >= now - STALE_AFTER
    {
      hide Sound, Resolve;
      order := [];
      var keys := states.Keys;
      while keys != {}
        invariant keys <= states.Keys <= old(states).Keys
        invariant forall k :: k in order <==> k in old(states) && k !in keys
        invariant Valid() && clock <= now
        invariant View().(clock := now) == ExpireAll(old(View()), order, now, failing).(clock := now)
        invariant forall k :: k in states ==>
                  states[k] == old(states)[k] && (k !in keys ==> states[k].lastSeen >= now - STALE_AFTER)
      {
        var k :| k in keys;
        keys := keys - {k};
        ghost var before := View();
        SoundStep(before, Stale(k, now, failing));
        if states[k].lastSeen < now - STALE_AFTER {
          ResolveAlert(k, now, failing, false);
        }
        clock := now;
        ExpireStep(before, old(View()), order, k, now, failing);
        order := order + [k];
      }
      SoundClock(View(), now);
      clock := now;
    }
  }

  lemma ExpireStep(before: World, start: World, order: seq<Key>, k: Key, now: int, failing: set<AlertId>)
    requires before.(clock := now) == ExpireAll(start, order, now, failing).(clock := now)
    ensures Step(before, Stale(k, now, failing)) == ExpireAll(start, order + [k], now, failing)
  {
    assert (order + [k])[..|order|] == order;
    var w := ExpireAll(start, order, now, failing);
    assert Expire(before, k, now, failing).(clock := now) == Expire(w, k, now, failing).(clock := now);
  }
}
