/** The service as a whole: transfers opened, pinned and served somewhere in a run. */
module Service {
  import opened Names
  import opened NameCodec
  import opened QueryParser
  import opened Signing
  import opened Delivery
  import opened Store
  import opened History
  import opened StoreInvariant
  import opened Transfer
  import opened Framing
  import opened Plans
  import opened Convergence
  import opened EndToEnd
  import opened Runs
  import opened RunFacts

  /** What is asked of an incremental transfer beyond its pin: no SOA below the apex on the way. */
  ghost predicate IncrementReadable(s: ZoneState, plan: Plan) {
    plan.mode == Ixfr ==> NoLowerSoa(plan.zone, s, plan.minVersion, plan.targetVersion)
  }

  lemma {:induction false} OpenedPlan(hmac: Hmac, st: Store, q: Query, ref: string, now: int)
    requires Inv(st) && TransferQuery(q) && Authorize(hmac, st, q, ref, now).1.Authorized?
    ensures var plan := Authorize(hmac, st, q, ref, now).1.plan;
            && q.tsig.Some? && q.qname in st.zones && ZoneInv(q.qname, st.zones[q.qname])
            && plan.zone == q.qname && plan.qid == q.id && plan.keyName == q.tsig.value.name
            && plan.targetVersion == st.zones[q.qname].row.currentVersion
            && plan.targetSerial == st.zones[q.qname].row.currentSerial
            && ScopeOk(st.zones[q.qname], q, plan.mode, plan.minVersion)
  {
    AuthorizedPlan(hmac, st, q, ref, now);
    InvAt(st, q.qname);
  }

  /**
   The service's promise to its secondaries, over whole runs. A transfer is authorized in step
   `i` and read in state `j`; its pin is fresh at every cleanup of the zone in between. Then,
   whatever else happened, the secondary accepts what it is sent, and its copy of the version
   it claimed becomes the snapshot that was current when the transfer was authorized.
   */
  lemma {:induction false} SecondaryFollowsRun(hmac: Hmac, states: seq<Store>, steps: seq<Step>, i: nat, j: nat,
                                               q: Query, ref: string, now: int, when: int, configured: int)
    requires IsRun(hmac, states, steps) && states[0] == Store(map[], []) && i < j < |states|
    requires steps[i] == Open(q, ref, now) && TransferQuery(q) && Authorize(hmac, states[i], q, ref, now).1.Authorized?
    requires forall k :: i < k < j ==> Guarded(states[k], steps[k], q.qname, ref)
    requires q.qname in states[i].zones && q.tsig.Some? && IsKeyName(q.tsig.value.name) && 0 <= when < 0x1_0000_0000_0000
    requires Packable(q.qname, states[i].zones[q.qname], Authorize(hmac, states[i], q, ref, now).1.plan.minVersion)
    requires IncrementReadable(states[i].zones[q.qname], Authorize(hmac, states[i], q, ref, now).1.plan)
    ensures q.qname in states[j].zones
    ensures var s, t := states[i].zones[q.qname], states[j].zones[q.qname];
            var plan, mac := Authorize(hmac, states[i], q, ref, now).1.plan, q.tsig.value.data.mac;
            && Stream(t, plan, q.clientSerial).Some?
            && IsCanonical(plan.zone) && plan.keyName == q.tsig.value.name && plan.qid == q.id
            && var rows := Stream(t, plan, q.clientSerial).value;
            && (forall k :: 0 <= k < |rows| ==> RowFits(plan.zone, rows[k]))
            && var received := Receive(hmac, Served(hmac, plan, mac, when, configured, rows), plan.secret, mac, plan.keyName);
            && received.Some?
            && Updated(plan.mode, MapSet(RrOfRow(), RecordsOf(s, plan.minVersion)), received.value)
               == MapSet(RrOfRow(), RecordsOf(s, s.row.currentVersion))
  {
    EmptyStoreInv();
    RunKeepsInv(hmac, states, steps, i);
    OpenedPlan(hmac, states[i], q, ref, now);
    PinnedTransferIsSafe(hmac, states, steps, i, j, q, ref, now);
    TransferConverges(hmac, q.qname, states[i].zones[q.qname], states[j].zones[q.qname], q,
                      Authorize(hmac, states[i], q, ref, now).1.plan, when, configured);
  }
}
