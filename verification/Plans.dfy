/** What an authorized transfer has pinned, and what it streams if it reads at once. */
module Plans {
  import opened Basics
  import opened Records
  import opened Changeset
  import opened Serial
  import opened Wire
  import opened QueryParser
  import opened Signing
  import opened Store
  import opened History
  import opened StoreInvariant
  import opened Transfer
  import opened TransferFacts

  /** Authorizing a transfer keeps the invariant of the store. */
  lemma {:induction false} AuthorizeKeepsInv(hmac: Hmac, st: Store, q: Query, ref: string, now: int)
    requires Inv(st) && TransferQuery(q)
    ensures Inv(Authorize(hmac, st, q, ref, now).0)
  {
    var (st', outcome) := Authorize(hmac, st, q, ref, now);
    if outcome.Authorized? {
      var s, plan := st.zones[q.qname], outcome.plan;
      var pins := s.pins[ref := Pin(plan.targetVersion, plan.minVersion, plan.keyGen, now, true)];
      InvAt(st, q.qname);
      PinsAreFree(q.qname, s, pins);
      InvUpdate(st, q.qname, s.(pins := pins), st.tasks);
    }
  }

  /** The mode and the oldest version of a plan, as they follow from the retained history. */
  ghost predicate ScopeOk(s: ZoneState, q: Query, mode: Mode, minVersion: nat) {
    && minVersion in s.versions && minVersion <= s.row.currentVersion
    && (mode == Axfr ==> minVersion == s.row.currentVersion)
    && (mode == Ixfr <==>
          && q.qtype == TYPE_IXFR && q.clientSerial.Some?
          && Compare(q.clientSerial.value, s.row.currentSerial) in {Equal, Greater}
          && exists v :: HasSerial(s.versions, v, q.clientSerial.value))
    && (mode == Ixfr ==> HasSerial(s.versions, minVersion, q.clientSerial.value))
  }

  /** The version row that a plan's oldest version comes from is always there. */
  lemma {:induction false} ScopeExists(cur: nat, s: ZoneState, q: Query)
    requires cur == s.row.currentVersion && TransferQuery(q)
    requires HistoryShape(cur, s.versions.Keys, s.records.Keys, s.changes) && SerialsOk(cur, s.row.currentSerial, s.versions)
    ensures Scope(s, q).Some? && ScopeOk(s, q, Scope(s, q).value.0, Scope(s, q).value.1)
  {
    if q.clientSerial.Some? {
      DecisionIsExact(cur, s.row.currentSerial, s.versions, s.records.Keys, s.changes, q.clientSerial.value);
    }
  }

  /** What an authorized plan says, and that its pin protects what it says. */
  ghost predicate PlanOk(s: ZoneState, q: Query, ref: string, plan: Plan, pins: map<string, Pin>, now: int) {
    && plan.zone == q.qname && plan.ref == ref
    && plan.targetVersion == s.row.currentVersion && plan.targetSerial == s.row.currentSerial
    && ScopeOk(s, q, plan.mode, plan.minVersion)
    && pins == s.pins[ref := Pin(plan.targetVersion, plan.minVersion, plan.keyGen, now, true)]
    && ref !in s.pins
  }

  lemma {:induction false} AuthorizedPlan(hmac: Hmac, st: Store, q: Query, ref: string, now: int)
    requires Inv(st) && TransferQuery(q) && Authorize(hmac, st, q, ref, now).1.Authorized?
    ensures var (st', outcome) := Authorize(hmac, st, q, ref, now);
            && q.qname in st.zones && q.qname in st'.zones
            && PlanOk(st.zones[q.qname], q, ref, outcome.plan, st'.zones[q.qname].pins, now)
            && st'.zones[q.qname] == st.zones[q.qname].(pins := st'.zones[q.qname].pins)
            && st'.zones == st.zones[q.qname := st'.zones[q.qname]] && st'.tasks == st.tasks
            && q.tsig.Some? && outcome.plan.keyName == q.tsig.value.name && outcome.plan.qid == q.id
  {
    var s := st.zones[q.qname];
    InvAt(st, q.qname);
    ScopeExists(s.row.currentVersion, s, q);
    assert !RefTaken(st.zones, ref);
  }

  /** The rows of an incremental plan: the target's SOA and the deltas from the oldest version on. */
  ghost function Increment(s: ZoneState, plan: Plan): Option<seq<Row>> {
    match FetchSoa(plan.zone, RecordsOf(s, plan.targetVersion))
    case None => None
    case Some(soa) => Some([soa] + RowsOf(ChangesUpTo(s, plan.minVersion, plan.targetVersion)))
  }

  /** An up-to-date client's single SOA is the increment with no deltas. */
  lemma {:induction false} IxfrIsIncrement(s: ZoneState, q: Query, plan: Plan)
    requires SerialsOk(s.row.currentVersion, s.row.currentSerial, s.versions) && s.row.currentVersion in s.versions
    requires TransferQuery(q) && ScopeOk(s, q, plan.mode, plan.minVersion) && plan.mode == Ixfr
    requires plan.targetVersion == s.row.currentVersion && plan.targetSerial == s.row.currentSerial
    ensures IxfrRows(s, plan, q.clientSerial) == Increment(s, plan)
  {
    var client := q.clientSerial.value;
    assert Has(s.versions, s.row.currentVersion);
    if Compare(client, plan.targetSerial) == Greater {
      var v0 := VersionBySerial(s.versions, client).value;
      SerialsUnique(s.row.currentVersion, s.row.currentSerial, s.versions, v0, plan.minVersion, client);
    } else {
      assert client == s.row.currentSerial;
      SerialsUnique(s.row.currentVersion, s.row.currentSerial, s.versions, s.row.currentVersion, plan.minVersion, client);
      assert RowsOf(ChangesUpTo(s, plan.minVersion, plan.targetVersion)) == [];
      assert forall soa: Row :: [soa] + [] == [soa];
    }
  }

  /** Every incremental stream opens with the target's SOA, and is nothing else for a client that does not lag behind. */
  lemma {:induction false} IxfrOpensWithTarget(zone: string, s: ZoneState, q: Query, plan: Plan)
    requires ZoneInv(zone, s) && TransferQuery(q) && plan.zone == zone && plan.mode == Ixfr
    requires plan.targetVersion == s.row.currentVersion && plan.targetSerial == s.row.currentSerial
    requires ScopeOk(s, q, plan.mode, plan.minVersion)
    ensures var rows := Stream(s, plan, q.clientSerial);
            && rows.Some? && rows.value != []
            && IsApexSoa(zone, RecordsOf(s, s.row.currentVersion), rows.value[0])
            && rows.value[0].rdata.serial == s.row.currentSerial
            && (plan.minVersion == s.row.currentVersion ==> |rows.value| == 1)
  {
    CurrentSnapshot(zone, s);
    var soa := ApexSoa(zone, RecordsOf(s, s.row.currentVersion), s.row.currentSerial);
    IxfrIsIncrement(s, q, plan);
    assert RowsOf(ChangesUpTo(s, s.row.currentVersion, s.row.currentVersion)) == [];
  }
}
