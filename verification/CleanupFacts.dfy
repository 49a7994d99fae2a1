/** Cleanup deletes a safe prefix of the history, however many workers run it and however often. */
module CleanupFacts {
  import opened Basics
  import opened Errors
  import opened Store
  import opened History

  /** The newest versions that the retention policy keeps. */
  predicate Newest(s: ZoneState, v: nat) {
    v > s.row.currentVersion - Max(1, s.row.retain)
  }

  /** Some live transfer may still read version `v`. */
  ghost predicate Pinned(s: ZoneState, v: nat, aliveAfter: int) {
    exists r :: r in s.pins && LivePin(s.pins[r], aliveAfter) && PinFloor(s.pins[r]) <= v
  }

  /** `after` is `before` without its entries below `bound`. */
  ghost predicate CutAt<T>(before: map<nat, T>, after: map<nat, T>, bound: int) {
    && (forall v :: v in after <==> v in before && v >= bound)
    && (forall v :: v in after ==> after[v] == before[v])
  }

  lemma {:induction false} PruneCuts(s: ZoneState, bound: int)
    requires s.records.Keys <= s.versions.Keys && s.changes.Keys <= s.versions.Keys
    ensures CutAt(s.versions, Prune(s, bound).versions, bound)
    ensures CutAt(s.records, Prune(s, bound).records, bound)
    ensures CutAt(s.changes, Prune(s, bound).changes, bound)
  {
  }

  /**
   A cleanup removes a prefix of the versions from all three history tables at once, never
   one of the newest max(1, retain), never one at or above the oldest version a live pin
   names, and leaves every row it keeps, the ledger and the keys as they are.
   */
  lemma {:induction false} CleanupIsPrefixDelete(s: ZoneState, now: int)
    requires HistoryShape(s.row.currentVersion, s.versions.Keys, s.records.Keys, s.changes)
    ensures var after, bound := CleanZone(s, now), DeleteBefore(s, now);
            && CutAt(s.versions, after.versions, bound) && CutAt(s.records, after.records, bound)
            && CutAt(s.changes, after.changes, bound)
            && (forall v :: v in s.versions && (Newest(s, v) || Pinned(s, v, AliveAfter(now))) ==> v >= bound)
            && after.row == s.row && after.ledger == s.ledger && after.keys == s.keys
            && (forall r :: r in after.pins <==> r in s.pins && !DeadPin(s.pins[r], AliveAfter(now)))
            && (forall r :: r in after.pins ==> after.pins[r] == s.pins[r])
  {
    var bound := DeleteBefore(s, now);
    PruneCuts(s, bound);
    forall v | v in s.versions && (Newest(s, v) || Pinned(s, v, AliveAfter(now))) ensures v >= bound {
      if Pinned(s, v, AliveAfter(now)) {
        var r :| r in s.pins && LivePin(s.pins[r], AliveAfter(now)) && PinFloor(s.pins[r]) <= v;
        assert PinHorizon(s.pins, AliveAfter(now)) <= PinFloor(s.pins[r]);
      }
    }
  }

  /** Retained before, and kept by policy or for a live transfer. */
  ghost predicate Keeps(s: ZoneState, v: nat, now: int) {
    v in s.versions && (Newest(s, v) || Pinned(s, v, AliveAfter(now)))
  }

  /**
   Retention is enforced to the version: after a cleanup exactly those versions are left that
   are among the newest max(1, retain) or that a live pin may still read, in all three tables.
   */
  lemma {:induction false} CleanupKeepsExactly(s: ZoneState, now: int, v: nat)
    requires HistoryShape(s.row.currentVersion, s.versions.Keys, s.records.Keys, s.changes)
    requires s.row.currentVersion < NO_PIN
    ensures var after := CleanZone(s, now);
            && (v in after.versions <==> Keeps(s, v, now))
            && (v in after.records <==> Keeps(s, v, now))
            && (v in after.changes <==> Keeps(s, v, now) && v >= 1)
            && (v in after.versions ==> after.versions[v] == s.versions[v] && after.records[v] == s.records[v])
            && (v in after.changes ==> after.changes[v] == s.changes[v])
  {
    PruneCuts(s, DeleteBefore(s, now));
    if v in s.versions {
      HorizonCovers(s, v, AliveAfter(now));
    }
  }

  /**
   Besides versions a cleanup removes pins alone: those that are closed, and those last seen
   more than 300 seconds ago. The ledger, the keys and the zone's own row stay.
   */
  lemma {:induction false} CleanupReaps(s: ZoneState, now: int, ref: string)
    ensures var after := CleanZone(s, now);
            && (ref in after.pins <==> ref in s.pins && s.pins[ref].open && now - s.pins[ref].lastSeen <= 300_000)
            && (ref in after.pins ==> after.pins[ref] == s.pins[ref])
            && after.row == s.row && after.ledger == s.ledger && after.keys == s.keys
  {
  }

  lemma {:induction false} HorizonCovers(s: ZoneState, v: nat, aliveAfter: int)
    requires v < NO_PIN
    ensures Pinned(s, v, aliveAfter) <==> v >= PinHorizon(s.pins, aliveAfter)
  {
    var h := PinHorizon(s.pins, aliveAfter);
    if r :| r in s.pins && LivePin(s.pins[r], aliveAfter) && PinFloor(s.pins[r]) == h {
      assert h <= v ==> PinFloor(s.pins[r]) <= v;
    }
    if r :| r in s.pins && LivePin(s.pins[r], aliveAfter) && PinFloor(s.pins[r]) <= v {
      assert h <= PinFloor(s.pins[r]);
    }
  }

  /** Pins that agree on the live ones have the same horizon. */
  lemma {:induction false} SameLivePins(p: map<string, Pin>, q: map<string, Pin>, aliveAfter: int)
    requires forall r :: r in p && LivePin(p[r], aliveAfter) ==> r in q && q[r] == p[r]
    requires forall r :: r in q && LivePin(q[r], aliveAfter) ==> r in p && p[r] == q[r]
    ensures PinHorizon(p, aliveAfter) == PinHorizon(q, aliveAfter)
  {
  }

  /** Running the cleanup again at the same state and clock changes nothing more. */
  lemma {:induction false} CleanupIsIdempotent(s: ZoneState, now: int)
    ensures CleanZone(CleanZone(s, now), now) == CleanZone(s, now)
  {
    var once, aliveAfter := CleanZone(s, now), AliveAfter(now);
    SameLivePins(s.pins, once.pins, aliveAfter);
    assert DeleteBefore(once, now) == DeleteBefore(s, now);
    var bound := DeleteBefore(s, now);
    assert Candidates(once, bound) == {};
    assert once.versions - {} == once.versions && once.records - {} == once.records && once.changes - {} == once.changes;
    assert Reap(once.pins, aliveAfter) == once.pins;
  }

  /** No version number to be kept by policy alone reaches the value that stands for "no pin". */
  predicate PolicyBelowNoPin(s: ZoneState) {
    s.row.currentVersion - Max(1, s.row.retain) + 1 <= NO_PIN
  }

  /** A cleanup with an earlier clock does nothing that a later one would not do alone. */
  lemma {:induction false} EarlierCleanupIsSubsumed(s: ZoneState, t1: int, t2: int)
    requires PolicyBelowNoPin(s) && t1 <= t2
    ensures CleanZone(CleanZone(s, t1), t2) == CleanZone(s, t2)
  {
    var once := CleanZone(s, t1);
    SameLivePins(s.pins, once.pins, AliveAfter(t2));
    assert DeleteBefore(once, t2) == DeleteBefore(s, t2);
    assert DeleteBefore(s, t1) <= DeleteBefore(s, t2);
    PruneTwice(s, DeleteBefore(s, t1), DeleteBefore(s, t2));
    assert Reap(once.pins, AliveAfter(t2)) == Reap(s.pins, AliveAfter(t2));
  }

  /** A cleanup whose clock lags behind that of an earlier one changes nothing at all. */
  lemma {:induction false} LaggingCleanupIsIdle(s: ZoneState, t1: int, t2: int)
    requires PolicyBelowNoPin(s) && t2 <= t1
    ensures CleanZone(CleanZone(s, t1), t2) == CleanZone(s, t1)
  {
    var once := CleanZone(s, t1);
    LivePinsStayLive(s.pins, once.pins, AliveAfter(t1), AliveAfter(t2));
    assert DeleteBefore(once, t2) <= DeleteBefore(s, t1);
    PruneTwice(s, DeleteBefore(s, t1), DeleteBefore(once, t2));
    assert Reap(once.pins, AliveAfter(t2)) == once.pins;
  }

  /** With more live pins the horizon is no later, unless there were none and theirs is beyond all versions. */
  lemma {:induction false} LivePinsStayLive(pins: map<string, Pin>, reaped: map<string, Pin>, late: int, early: int)
    requires early <= late && reaped == Reap(pins, late)
    ensures PinHorizon(reaped, early) <= PinHorizon(pins, late) || PinHorizon(pins, late) == NO_PIN
  {
    if r :| r in pins && LivePin(pins[r], late) && PinFloor(pins[r]) == PinHorizon(pins, late) {
      assert r in reaped && LivePin(reaped[r], early);
    }
  }

  lemma {:induction false} PruneTwice(s: ZoneState, a: int, b: int)
    ensures var p := map[]; Prune(Prune(s, a).(pins := p), b).(pins := p) == Prune(s, Max(a, b)).(pins := p)
  {
    var once := Prune(s, a);
    assert Candidates(s, a) + Candidates(once, b) == Candidates(s, Max(a, b));
  }

  /**
   Two workers on tasks of the same zone, or one worker and another that took its expired
   task over: whatever their clocks, they do to the zones what the one with the later clock
   would do alone.
   */
  lemma {:induction false} SecondWorkerFindsNothing(st: Store, i: nat, t1: int, j: nat, t2: int)
    requires i < |st.tasks| && j < |st.tasks| && st.tasks[i].zone == st.tasks[j].zone
    requires st.tasks[i].zone in st.zones ==> PolicyBelowNoPin(st.zones[st.tasks[i].zone])
    ensures j < |RunCleanup(st, i, t1).tasks|
    ensures RunCleanup(RunCleanup(st, i, t1), j, t2).zones == RunCleanup(st, i, Max(t1, t2)).zones
  {
    var zone := st.tasks[i].zone;
    if zone in st.zones {
      if t1 <= t2 {
        EarlierCleanupIsSubsumed(st.zones[zone], t1, t2);
      } else {
        LaggingCleanupIsIdle(st.zones[zone], t1, t2);
      }
    }
  }

  /**
   The gap in the code's two comparisons: an open pin survives a cleanup without protecting
   anything exactly if it was last seen at the limit. Seen then or earlier it makes no
   difference: the cleanup deletes what it would delete without the pin.
   */
  lemma {:induction false} BoundaryPinProtectsNothing(s: ZoneState, ref: string, now: int)
    requires ref in s.pins && s.pins[ref].open
    ensures ref in CleanZone(s, now).pins <==> now - s.pins[ref].lastSeen <= 300_000
    ensures ref in CleanZone(s, now).pins && !LivePin(s.pins[ref], AliveAfter(now)) <==> now - s.pins[ref].lastSeen == 300_000
    ensures now - s.pins[ref].lastSeen >= 300_000 ==>
              CleanZone(s, now).versions == CleanZone(s.(pins := s.pins - {ref}), now).versions
  {
    if now - s.pins[ref].lastSeen >= 300_000 {
      SameLivePins(s.pins, s.pins - {ref}, AliveAfter(now));
      assert DeleteBefore(s, now) == DeleteBefore(s.(pins := s.pins - {ref}), now);
    }
  }

  // ---------------------------------------------------------------------------
  // Pins, leases and queued work
  // ---------------------------------------------------------------------------

  /** A heartbeat keeps an open pin alive for every cleanup in the next 300 seconds; no other pin notices. */
  lemma {:induction false} HeartbeatKeepsAlive(st: Store, zone: string, ref: string, beat: int, now: int)
    requires zone in st.zones && ref in st.zones[zone].pins && st.zones[zone].pins[ref].open
    requires now - beat < 300_000
    ensures var s := Heartbeat(st, zone, ref, beat).zones[zone];
            && LivePin(s.pins[ref], AliveAfter(now)) && ref in CleanZone(s, now).pins
            && PinFloor(s.pins[ref]) == PinFloor(st.zones[zone].pins[ref])
            && (forall r :: r != ref ==> (r in s.pins <==> r in st.zones[zone].pins))
            && (forall r :: r != ref && r in s.pins ==> s.pins[r] == st.zones[zone].pins[r])
  {
  }

  /** Only the one pin of the one zone differs between the two stores, and what it protects does not. */
  ghost predicate OnlyPinMoves(st: Store, st': Store, zone: string, ref: string) {
    && st'.tasks == st.tasks && zone in st.zones && ref in st.zones[zone].pins
    && var s := st.zones[zone];
    && st'.zones.Keys == st.zones.Keys && (forall z :: z in st.zones && z != zone ==> st'.zones[z] == st.zones[z])
    && st'.zones[zone] == s.(pins := st'.zones[zone].pins)
    && st'.zones[zone].pins.Keys == s.pins.Keys
    && (forall r :: r in s.pins && r != ref ==> st'.zones[zone].pins[r] == s.pins[r])
    && var before, after := s.pins[ref], st'.zones[zone].pins[ref];
    && after.versionId == before.versionId && after.minVersion == before.minVersion && after.keyGen == before.keyGen
  }

  /** Heartbeat and release, in full: the pin is seen now, and a release closes it; an unknown one is ignored. */
  lemma {:induction false} PinMovesAreExact(st: Store, zone: string, ref: string, now: int)
    ensures var known, beat, released := zone in st.zones && ref in st.zones[zone].pins, Heartbeat(st, zone, ref, now), Release(st, zone, ref, now);
            && (!known ==> beat == st && released == st)
            && (known ==>
                  && OnlyPinMoves(st, beat, zone, ref) && OnlyPinMoves(st, released, zone, ref)
                  && beat.zones[zone].pins[ref].lastSeen == now && beat.zones[zone].pins[ref].open == st.zones[zone].pins[ref].open
                  && released.zones[zone].pins[ref].lastSeen == now && !released.zones[zone].pins[ref].open)
  {
  }

  /** A released pin protects nothing any more, and the next cleanup removes it, whenever that is. */
  lemma {:induction false} ReleaseLetsGo(st: Store, zone: string, ref: string, released: int, now: int)
    requires zone in st.zones && ref in st.zones[zone].pins
    ensures var s := Release(st, zone, ref, released).zones[zone];
            && ref !in CleanZone(s, now).pins
            && CleanZone(s, now).versions == CleanZone(st.zones[zone].(pins := st.zones[zone].pins - {ref}), now).versions
  {
    var s := Release(st, zone, ref, released).zones[zone];
    var without := st.zones[zone].(pins := st.zones[zone].pins - {ref});
    SameLivePins(s.pins, without.pins, AliveAfter(now));
    assert DeleteBefore(s, now) == DeleteBefore(without, now);
  }

  /** For as long as its lease runs, a claimed task is not handed out again; afterwards it can be. */
  lemma {:induction false} LeaseExcludes(st: Store, id: nat, token: string, claimed: int, now: int)
    requires id < |st.tasks|
    ensures var tasks := ClaimTask(st, id, token, claimed).tasks;
            && (now <= claimed + 30 ==> !Claimable(tasks, id, now))
            && (now > claimed + 30 ==> IsExpired(now)(tasks[id]))
  {
  }

  /** A claim touches the one task: it runs for this worker, once more, until its lease ends. */
  lemma {:induction false} ClaimMarksOne(st: Store, id: nat, token: string, now: int)
    requires id < |st.tasks|
    ensures var st' := ClaimTask(st, id, token, now);
            && st'.zones == st.zones && |st'.tasks| == |st.tasks|
            && st'.tasks[id] == Task(st.tasks[id].zone, Running, token, now + 30, st.tasks[id].attempts + 1)
            && (forall j :: 0 <= j < |st.tasks| && j != id ==> st'.tasks[j] == st.tasks[j])
  {
  }

  /** The task that ran is done, whatever became of its zone; no other task and no other zone notices. */
  lemma {:induction false} CleanupSettles(st: Store, id: nat, now: int, zone: string)
    requires id < |st.tasks|
    ensures var st' := RunCleanup(st, id, now);
            && |st'.tasks| == |st.tasks| && st'.tasks[id] == st.tasks[id].(state := Done)
            && (forall j :: 0 <= j < |st.tasks| && j != id ==> st'.tasks[j] == st.tasks[j])
            && st'.zones.Keys == st.zones.Keys
            && (zone in st.zones && zone != st.tasks[id].zone ==> st'.zones[zone] == st.zones[zone])
  {
  }

  /** Changing the retention changes that policy alone and queues a cleanup of the zone; an unknown zone is refused. */
  lemma {:induction false} RetentionQueuesCleanup(st: Store, zone: string, retain: int)
    ensures var (st', failure) := SetRetention(st, zone, retain);
            && (failure == if zone in st.zones then None else Some(ZoneNotFound))
            && (failure.Some? ==> st' == st)
            && (failure.None? ==>
                  && st'.zones == st.zones[zone := st'.zones[zone]]
                  && st'.zones[zone] == st.zones[zone].(row := st.zones[zone].row.(retain := retain))
                  && |st'.tasks| == |st.tasks| + 1 && st'.tasks[..|st.tasks|] == st.tasks
                  && st'.tasks[|st.tasks|].zone == zone && st'.tasks[|st.tasks|].state == Pending)
  {
  }

  /** A queued cleanup is pending, behind all others, and from then on there is a task to claim. */
  lemma {:induction false} WorkIsQueued(tasks: seq<Task>, zone: string, now: int)
    ensures var queued := Enqueue(tasks, zone);
            && tasks <= queued && queued[|tasks|].zone == zone && queued[|tasks|].state == Pending
            && exists id :: Claimable(queued, id, now)
  {
    var queued := Enqueue(tasks, zone);
    var id := FirstPending(queued, |tasks|);
    assert Claimable(queued, id, now);
  }

  lemma {:induction false} FirstPending(tasks: seq<Task>, n: nat) returns (id: nat)
    requires n < |tasks| && tasks[n].state == Pending
    ensures LowestTask(tasks, id, IsPending())
  {
    if i :| 0 <= i < n && tasks[i].state == Pending {
      id := FirstPending(tasks, i);
    } else {
      id := n;
    }
  }
}
