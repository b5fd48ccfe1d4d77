/**
 * Which messages the alert evaluator must send and what becomes of the rows they are about, told by
 * states, table and messages before and after a step, and over whole runs
 * (internal/dashboard/alerting/evaluator.go).
 */
module AlertDelivery {
  import opened Prelude
  import opened AlertEngine
  import opened AlertPacing

  predicate Firing(w: World, k: Key) {
    k in w.states && w.states[k].firing
  }

  // ---------------------------------------------------------------- one step

  /**
   * When a key starts firing while the evaluator runs, whatever fails: either the lookup answered with
   * an active row of the key, which is taken over without a message, or the record is a new one, made
   * now for this key, and exactly one message is sent: that it fired.
   */
  lemma StartsFiring(w: World, e: Event, k: Key)
    requires Sound(w) && Enabled(w, e) && !e.Restart? && !Firing(w, k) && Firing(Step(w, e), k)
    ensures var v := Step(w, e);
            var st := v.states[k];
            && Observes(e, k) && st.record.Some? && Matches(st.record.value, k)
            && var r := st.record.value;
               && (e.found.Some? ==>
                    && r.id in w.table && r == w.table[r.id] && st.notifiedAt == Some(Nanos(r.notifiedAt))
                    && v.table == w.table && v.sent == w.sent)
               && (e.found.None? ==>
                    && r.id !in w.table && !Used(w, r.id) && st.notifiedAt == Some(e.now)
                    && r.ruleID == e.rule.id && r.serverID == e.subject.serverID && r.state == RecordFiring
                    && r.nodeID == (if e.subject.Node? then e.subject.nodeID else "")
                    && r.firedAt == r.createdAt == r.notifiedAt == Seconds(e.now) && r.resolvedAt == 0
                    && v.table == (if r.id in e.failing then w.table else w.table[r.id := r])
                    && v.sent == w.sent + [Notification(Fired, Some(r.id), e.now)])
  {
    if !Observes(e, k) {
      KeptState(w, e, k);
    } else {
      if e.found.None? {
        NewIdUnused(w, e.rule, e.subject, e.now);
      }
      if k in w.states {
        assert StateOk(w, k);
      }
    }
  }

  /**
   * A breached observation of a firing key sends a message exactly if the rule's cooldown has passed
   * since the last one the state knows of: one repeat about its record, noted in state and row.
   */
  lemma RepeatsIff(w: World, e: Event, k: Key)
    requires Sound(w) && Enabled(w, e) && Observes(e, k) && e.breached && Firing(w, k)
    ensures var v := Step(w, e);
            && w.states[k].record.Some? && w.states[k].notifiedAt.Some?
            && var (r, t) := (w.states[k].record.value, w.states[k].notifiedAt.value);
               && Firing(v, k) && v.states[k].record.Some? && v.states[k].record.value.id == r.id
               && (if e.now - t >= e.rule.cooldownMin * 60 * 1_000_000_000 then
                     && v.sent == w.sent + [Notification(Renotified(e.rule.cooldownMin), Some(r.id), e.now)]
                     && v.states[k].notifiedAt == Some(e.now)
                     && (r.id in v.table && r.id !in e.failing ==> v.table[r.id].notifiedAt == Seconds(e.now))
                   else
                     v.sent == w.sent && v.states[k].notifiedAt == Some(t) && v.table == w.table)
  {
    assert StateOk(w, k);
  }

  predicate ResolvedAt(t: Table, id: AlertId, now: int) {
    id in t && t[id].state == RecordResolved && t[id].resolvedAt == Seconds(now)
  }

  /** A step that clears a key: an observation within bounds, or marking it normal. */
  predicate Clears(e: Event, k: Key) {
    (Observes(e, k) && !e.breached) || (e.MarkNormal? && e.key == k)
  }

  /**
   * Clearing a key drops its state and sends a message exactly if the state has a record: one recovery
   * about it, and its row becomes resolved unless that write fails.
   */
  lemma RecoversIff(w: World, e: Event, k: Key)
    requires Sound(w) && Clears(e, k)
    ensures var v := Step(w, e);
            && k !in v.states
            && (if k in w.states && w.states[k].record.Some? then
                  var id := w.states[k].record.value.id;
                  && v.sent == w.sent + [Notification(Recovered, Some(id), e.now)]
                  && (id in w.table && id !in e.failing ==> ResolvedAt(v.table, id, e.now))
                else v.sent == w.sent && v.table == w.table)
  {
    if k in w.states {
      assert StateOk(w, k);
    }
  }

  /** Nothing else sends a message: expiry, a restart, another component's row, or a breach still pending. */
  lemma SilentOtherwise(w: World, e: Event)
    requires Sound(w) && Enabled(w, e)
    requires e.Stale? || e.Restart? || e.Foreign? ||
             (e.Observe? && e.breached && !Firing(Step(w, e), SubjectKey(e.rule.id, e.subject)))
    ensures Step(w, e).sent == w.sent
  {
    if e.Observe? && SubjectKey(e.rule.id, e.subject) in w.states {
      assert StateOk(w, SubjectKey(e.rule.id, e.subject));
    }
  }

  /** A key is dropped by expiry exactly if it was not seen for five minutes; its row then becomes resolved. */
  lemma ExpiresIff(w: World, e: Event, k: Key)
    requires Sound(w) && e.Stale? && e.key == k && k in w.states
    ensures var v := Step(w, e);
            && (k !in v.states <==> e.now - w.states[k].lastSeen > 5 * 60 * 1_000_000_000)
            && (k !in v.states && w.states[k].record.Some? ==>
                 var id := w.states[k].record.value.id;
                 id in w.table && id !in e.failing ==> ResolvedAt(v.table, id, e.now))
  {
    assert StateOk(w, k);
  }

  // ---------------------------------------------------------------- every record is announced once

  predicate HasRecord(w: World, k: Key, id: AlertId) {
    k in w.states && w.states[k].record.Some? && w.states[k].record.value.id == id
  }

  /** A row of the table, or the record of a state, has this ID. */
  ghost predicate Known(w: World, id: AlertId) {
    id in w.table || exists k :: HasRecord(w, k, id)
  }

  /** The message that announces a record of the evaluator. */
  function Announcement(id: AlertId): Notification
    requires id.EvaluatorId?
  {
    Notification(Fired, Some(id), id.nano)
  }

  /** Rows and states that are new: only a key that starts firing on a new record brings an ID of the evaluator. */
  lemma NewIdsStep(w: World, e: Event, id: AlertId)
    requires Sound(w) && Enabled(w, e) && id.EvaluatorId? && id !in w.table && !e.Restart?
    requires id in Step(w, e).table || (e.Observe? && var k := SubjectKey(e.rule.id, e.subject);
               && HasRecord(Step(w, e), k, id) && !HasRecord(w, k, id))
    ensures Step(w, e).sent == w.sent + [Announcement(id)]
  {
    if e.Observe? && SubjectKey(e.rule.id, e.subject) in w.states {
      assert StateOk(w, SubjectKey(e.rule.id, e.subject));
    }
  }

  lemma KnownByStep(w: World, e: Event, id: AlertId)
    requires Sound(w) && Enabled(w, e) && id.EvaluatorId? && Known(Step(w, e), id) && !Known(w, id)
    ensures Step(w, e).sent == w.sent + [Announcement(id)]
  {
    var v := Step(w, e);
    if id in v.table {
      assert e.Restart? ==> v.table == w.table;
      hide Step;
      NewIdsStep(w, e, id);
    } else {
      var k :| HasRecord(v, k, id);
      if e.Restart? {
        Hydrated(e.rows);
      }
      assert !HasRecord(w, k, id);
      if !e.Restart? && !Observes(e, k) {
        KeptState(w, e, k);
      }
      hide Step, Enabled;
      NewIdsStep(w, e, id);
    }
  }

  /** What a step sends: nothing, an announcement of an unused ID, or a message about a known record. */
  lemma SendsStep(w: World, e: Event)
    requires Sound(w) && Enabled(w, e)
    ensures var v := Step(w, e);
            || v.sent == w.sent
            || (exists n :: v.sent == w.sent + [n] && n.id.Some? && Used(v, n.id.value) &&
                  if n.kind.Fired? then n.id.value.EvaluatorId? && !Used(w, n.id.value) && n.at == n.id.value.nano
                  else Known(w, n.id.value))
  {
    var v := Step(w, e);
    if e.Observe? {
      var k := SubjectKey(e.rule.id, e.subject);
      if k in w.states {
        assert StateOk(w, k);
        assert w.states[k].record.Some? ==> HasRecord(w, k, w.states[k].record.value.id);
      }
      NewIdUnused(w, e.rule, e.subject, e.now);
      if v.sent != w.sent {
        assert v.sent == w.sent + [v.sent[|w.sent|]];
      }
    } else if e.MarkNormal? && e.key in w.states {
      assert StateOk(w, e.key);
      assert w.states[e.key].record.Some? ==> HasRecord(w, e.key, w.states[e.key].record.value.id);
      if v.sent != w.sent {
        assert v.sent == w.sent + [v.sent[|w.sent|]];
      }
    }
  }

  lemma UsedStays(w: World, e: Event, id: AlertId)
    requires Sound(w) && Enabled(w, e) && Used(w, id)
    ensures Used(Step(w, e), id)
  {
  }

  /** Every record of the evaluator that is known or was written about has been announced, and no ID twice. */
  ghost predicate Announced(w: World) {
    && (forall id: AlertId :: id.EvaluatorId? && Known(w, id) ==> Announcement(id) in w.sent)
    && (forall i :: 0 <= i < |w.sent| ==> w.sent[i].id.Some? && Used(w, w.sent[i].id.value))
    && (forall i :: 0 <= i < |w.sent| && w.sent[i].kind.Fired? ==>
          w.sent[i].id.value.EvaluatorId? && w.sent[i] == Announcement(w.sent[i].id.value))
    && (forall i :: 0 <= i < |w.sent| && w.sent[i].id.value.EvaluatorId? ==>
          Announcement(w.sent[i].id.value) in w.sent)
    && (forall i, j :: 0 <= i < j < |w.sent| && w.sent[i].kind.Fired? && w.sent[j].kind.Fired? ==>
          w.sent[i].id != w.sent[j].id)
  }

  lemma AnnouncedStep(w: World, e: Event)
    requires Sound(w) && Enabled(w, e) && Announced(w)
    ensures Announced(Step(w, e))
  {
    var v := Step(w, e);
    SendsStep(w, e);
    forall id | Used(w, id)
      ensures Used(v, id)
    {
      UsedStays(w, e, id);
    }
    forall id: AlertId | id.EvaluatorId? && Known(v, id)
      ensures Announcement(id) in v.sent
    {
      if !Known(w, id) {
        KnownByStep(w, e, id);
      }
    }
    hide Step, Sound, Enabled, Known, Used;
  }

  lemma {:induction false} AnnouncedRun(events: seq<Event>)
    requires ValidRun(events)
    ensures Announced(Run(events))
  {
    if events != [] {
      AnnouncedRun(events[..|events| - 1]);
      SoundRun(events[..|events| - 1]);
      AnnouncedStep(Run(events[..|events| - 1]), events[|events| - 1]);
    }
  }

  /**
   * Over every run, whatever fails and across restarts: for every record the evaluator created that is
   * in the table, in memory or that any message is about, exactly one message says that it fired, sent
   * when it was created.
   */
  lemma FiredExactlyOnce(events: seq<Event>, id: AlertId)
    requires ValidRun(events) && id.EvaluatorId?
    requires var w := Run(events); Known(w, id) || exists i :: 0 <= i < |w.sent| && w.sent[i].id == Some(id)
    ensures var sent := Run(events).sent;
            exists i :: 0 <= i < |sent| && sent[i] == Notification(Fired, Some(id), id.nano)
              && forall j :: 0 <= j < |sent| && sent[j].kind.Fired? && sent[j].id == Some(id) ==> j == i
  {
    AnnouncedRun(events);
    hide Run;
    var sent := Run(events).sent;
    assert Announcement(id) in sent;
    var i :| 0 <= i < |sent| && sent[i] == Announcement(id);
    assert forall j :: 0 <= j < |sent| && sent[j].kind.Fired? && sent[j].id == Some(id) ==> j == i;
  }

  // ---------------------------------------------------------------- repeats within an episode

  /**
   * Over every run, whatever fails: once a message was sent about a key that stays in memory, a breached
   * observation sends another exactly if the rule's cooldown has passed since the last one.
   */
  lemma EpisodeRepeatsIff(events: seq<Event>, e: Event, k: Key)
    requires ValidRun(events) && Enabled(Run(events), e) && Observes(e, k) && e.breached
    requires Firing(Run(events), k) && Episode(events, k) != []
    ensures var w, v := Run(events), Run(events + [e]);
            var last := Episode(events, k)[|Episode(events, k)| - 1];
            v.sent == if e.now - last.at >= e.rule.cooldownMin * 60 * 1_000_000_000 then
                        w.sent + [Notification(Renotified(e.rule.cooldownMin), last.id, e.now)]
                      else w.sent
  {
    assert (events + [e])[..|events|] == events;
    EpisodePaced(events, k);
    SoundRun(events);
    RepeatsIff(Run(events), e, k);
    assert Run(events + [e]) == Step(Run(events), e);
    hide Run, Sound, Step, Enabled;
  }

  // ---------------------------------------------------------------- what becomes of a row

  /** The state's record is its row, if it has one, but for when it was last notified. */
  predicate MirroredAt(w: World, k: Key)
    requires k in w.states && w.states[k].record.Some?
  {
    var r := w.states[k].record.value;
    r.id in w.table ==> w.table[r.id] == r.(notifiedAt := w.table[r.id].notifiedAt)
  }

  ghost predicate Mirrored(w: World) {
    forall k :: k in w.states && w.states[k].record.Some? ==> MirroredAt(w, k)
  }

  /** A row stays, and is changed only while active: when it was last notified, or to resolved, now. */
  predicate RowStep(a: AlertRecord, b: AlertRecord, now: int) {
    || a == b
    || (Active(a) && b == a.(notifiedAt := b.notifiedAt))
    || (Active(a) && b == a.(state := RecordResolved, resolvedAt := Seconds(now), notifiedAt := b.notifiedAt))
  }

  lemma RowByStep(w: World, e: Event, id: AlertId)
    requires Sound(w) && Mirrored(w) && id in w.table
    ensures id in Step(w, e).table && RowStep(w.table[id], Step(w, e).table[id], e.now)
  {
    if e.Observe? || e.MarkNormal? || e.Stale? {
      var k := if e.Observe? then SubjectKey(e.rule.id, e.subject) else e.key;
      if k in w.states {
        assert StateOk(w, k);
        assert w.states[k].record.Some? ==> MirroredAt(w, k);
      }
    }
  }

  /** A key the step does not observe. */
  lemma MirroredOther(w: World, e: Event, k: Key)
    requires Sound(w) && Enabled(w, e) && Mirrored(w) && !e.Restart? && !Observes(e, k)
    requires k in Step(w, e).states && Step(w, e).states[k].record.Some?
    ensures MirroredAt(Step(w, e), k)
  {
    KeptState(w, e, k);
    assert StateOk(w, k) && MirroredAt(w, k);
    var id := w.states[k].record.value.id;
    if e.Observe? {
      NewIdUnused(w, e.rule, e.subject, e.now);
    }
    if e.Observe? || e.MarkNormal? || e.Stale? {
      var h := if e.Observe? then SubjectKey(e.rule.id, e.subject) else e.key;
      if h in w.states && h != k {
        assert StateOk(w, h);
        assert HasRecord(w, h, id) ==> id !in w.table;
      }
    }
  }

  lemma MirroredObserved(w: World, e: Event, k: Key)
    requires Sound(w) && Enabled(w, e) && Mirrored(w) && Observes(e, k)
    requires k in Step(w, e).states && Step(w, e).states[k].record.Some?
    ensures MirroredAt(Step(w, e), k)
  {
    if k in w.states {
      assert StateOk(w, k);
      assert w.states[k].record.Some? ==> MirroredAt(w, k);
    }
    NewIdUnused(w, e.rule, e.subject, e.now);
  }

  lemma MirroredRestart(w: World, e: Event, k: Key)
    requires Enabled(w, e) && e.Restart? && k in Step(w, e).states
    ensures Step(w, e).states[k].record.Some? && MirroredAt(Step(w, e), k)
  {
    Hydrated(e.rows);
  }

  lemma MirroredStep(w: World, e: Event)
    requires Sound(w) && Enabled(w, e) && Mirrored(w)
    ensures Mirrored(Step(w, e))
  {
    var v := Step(w, e);
    forall k | k in v.states && v.states[k].record.Some?
      ensures MirroredAt(v, k)
    {
      if e.Restart? {
        MirroredRestart(w, e, k);
      } else if Observes(e, k) {
        MirroredObserved(w, e, k);
      } else {
        MirroredOther(w, e, k);
      }
    }
  }

  lemma {:induction false} MirroredRun(events: seq<Event>)
    requires ValidRun(events)
    ensures Mirrored(Run(events))
  {
    if events != [] {
      var before := events[..|events| - 1];
      MirroredRun(before);
      SoundRun(before);
      MirroredStep(Run(before), events[|events| - 1]);
      hide Step, Mirrored;
    }
  }

  /**
   * Over every run, whatever fails: no step removes a row or changes what it is about and when it fired,
   * a resolved row is final, and one that is resolved bears the time of that step.
   */
  lemma RowHistory(events: seq<Event>, e: Event, id: AlertId)
    requires ValidRun(events) && id in Run(events).table
    ensures var before, after := Run(events).table, Run(events + [e]).table;
            id in after && RowStep(before[id], after[id], e.now)
  {
    assert (events + [e])[..|events|] == events;
    SoundRun(events);
    MirroredRun(events);
    RowByStep(Run(events), e, id);
    hide Step, Sound, RowStep;
  }
}
