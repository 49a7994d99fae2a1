/**
 A secondary from one transfer to the next. It names the serial of its copy, and serials are
 unique among the retained versions only; so the version the server finds by that serial is
 the one the copy is of, exactly if that one is still retained.
 */
module Secondaries {
  import opened Basics
  import opened Names
  import opened NameCodec
  import opened Serial
  import opened QueryParser
  import opened Signing
  import opened Client
  import opened Store
  import opened History
  import opened StoreInvariant
  import opened Transfer
  import opened TransferFacts
  import opened Moves
  import opened Lineage
  import opened Convergence
  import opened Delivery
  import opened EndToEnd
  import opened Runs
  import opened RunFacts
  import opened Service

  // ---------------------------------------------------------------------------
  // The version behind a serial
  // ---------------------------------------------------------------------------

  /**
   A secondary got its copy when version `v` was current, in state `h`, and asks for an
   increment in state `i`, by the serial of `v`. The increment starts from `v` exactly if `v`
   is still retained; and it is, if less than 2^32 has been travelled since.
   */
  lemma {:induction false} IncrementStartsFromCopyIff(hmac: Hmac, states: seq<Store>, steps: seq<Step>, h: nat, i: nat,
                                                      q: Query, ref: string, now: int)
    requires IsRun(hmac, states, steps) && Inv(states[0]) && h <= i < |states| && q.qname in states[h].zones
    requires TransferQuery(q) && Authorize(hmac, states[i], q, ref, now).1.Authorized?
    requires Authorize(hmac, states[i], q, ref, now).1.plan.mode == Ixfr
    requires q.clientSerial == Some(states[h].zones[q.qname].row.currentSerial)
    ensures q.qname in states[i].zones
    ensures var v, s, plan := states[h].zones[q.qname].row.currentVersion, states[i].zones[q.qname], Authorize(hmac, states[i], q, ref, now).1.plan;
            && (plan.minVersion == v <==> v in s.versions)
            && (Travelled(SerialsSince(states, q.qname, h, i)) < MOD ==> v in s.versions)
            && (v in s.versions ==> SameVersion(states[h].zones[q.qname], s, v))
  {
    var zone, v := q.qname, states[h].zones[q.qname].row.currentVersion;
    RunKeepsFollowing(hmac, states, steps, zone, h, i);
    RunKeepsInv(hmac, states, steps, i);
    OpenedPlan(hmac, states[i], q, ref, now);
    VersionBehindSerial(zone, states[h].zones[zone], v, SerialsSince(states, zone, h, i), states[i].zones[zone],
                        Authorize(hmac, states[i], q, ref, now).1.plan.minVersion);
  }

  lemma {:induction false} VersionBehindSerial(zone: string, a: ZoneState, v: nat, serials: seq<int>, s: ZoneState, m: nat)
    requires ZoneInv(zone, s) && Follows(a, v, serials, s) && HasSerial(s.versions, m, serials[0])
    ensures m == v <==> v in s.versions
    ensures Travelled(serials) < MOD ==> v in s.versions
  {
    if v in s.versions {
      assert Has(s.versions, v);
      SerialsUnique(s.row.currentVersion, s.row.currentSerial, s.versions, m, v, serials[0]);
    }
    if Travelled(serials) < MOD {
      ComesBackOnly(serials, v, s.row.currentVersion, s.row.currentSerial, s.versions, s.records.Keys, s.changes, m);
    }
  }

  /** The copy from state `h` does for the transfer: a full one, or an increment from its very version. */
  ghost predicate CopyServes(states: seq<Store>, zone: string, h: nat, i: nat, q: Query, plan: Plan)
    requires h < |states| && i < |states| && zone in states[h].zones && zone in states[i].zones
  {
    plan.mode == Ixfr ==>
      && q.clientSerial == Some(states[h].zones[zone].row.currentSerial)
      && (|| states[h].zones[zone].row.currentVersion in states[i].zones[zone].versions
          || Travelled(SerialsSince(states, zone, h, i)) < MOD)
  }

  lemma {:induction false} CopyIsSource(hmac: Hmac, states: seq<Store>, steps: seq<Step>, h: nat, i: nat, q: Query, ref: string, now: int)
    requires IsRun(hmac, states, steps) && Inv(states[0]) && h <= i < |states| && q.qname in states[h].zones && q.qname in states[i].zones
    requires TransferQuery(q) && Authorize(hmac, states[i], q, ref, now).1.Authorized?
    requires CopyServes(states, q.qname, h, i, q, Authorize(hmac, states[i], q, ref, now).1.plan)
    ensures var a, s, plan := states[h].zones[q.qname], states[i].zones[q.qname], Authorize(hmac, states[i], q, ref, now).1.plan;
            plan.mode == Ixfr ==> RecordsOf(s, plan.minVersion) == RecordsOf(a, a.row.currentVersion)
  {
    if Authorize(hmac, states[i], q, ref, now).1.plan.mode == Ixfr {
      IncrementStartsFromCopyIff(hmac, states, steps, h, i, q, ref, now);
    }
  }

  lemma {:induction false} CopyOnlyForIncrements(mode: Mode, a: set<Rr>, b: set<Rr>, answers: seq<Rr>)
    requires mode == Ixfr ==> a == b
    ensures Updated(mode, a, answers) == Updated(mode, b, answers)
  {
  }

  /**
   A secondary that got the zone in state `h` and asks again in state `i` of the same run has
   the snapshot current then, once it has read its answer in state `j`: if the answer is a
   full transfer, or its copy's version is still retained, or less than 2^32 has been travelled.
   */
  lemma {:induction false} SecondaryKeepsUp(hmac: Hmac, states: seq<Store>, steps: seq<Step>, h: nat, i: nat, j: nat,
                                            q: Query, ref: string, now: int, when: int, configured: int)
    requires IsRun(hmac, states, steps) && states[0] == Store(map[], []) && h <= i < j < |states|
    requires steps[i] == Open(q, ref, now) && TransferQuery(q) && Authorize(hmac, states[i], q, ref, now).1.Authorized?
    requires forall k :: i < k < j ==> Guarded(states[k], steps[k], q.qname, ref)
    requires q.qname in states[h].zones && q.qname in states[i].zones
    requires q.tsig.Some? && IsKeyName(q.tsig.value.name) && 0 <= when < 0x1_0000_0000_0000
    requires Packable(q.qname, states[i].zones[q.qname], Authorize(hmac, states[i], q, ref, now).1.plan.minVersion)
    requires IncrementReadable(states[i].zones[q.qname], Authorize(hmac, states[i], q, ref, now).1.plan)
    requires CopyServes(states, q.qname, h, i, q, Authorize(hmac, states[i], q, ref, now).1.plan)
    ensures q.qname in states[j].zones
    ensures var a, s, t := states[h].zones[q.qname], states[i].zones[q.qname], states[j].zones[q.qname];
            var plan, mac := Authorize(hmac, states[i], q, ref, now).1.plan, q.tsig.value.data.mac;
            && Stream(t, plan, q.clientSerial).Some?
            && IsCanonical(plan.zone) && plan.keyName == q.tsig.value.name && plan.qid == q.id
            && var rows := Stream(t, plan, q.clientSerial).value;
            && (forall k :: 0 <= k < |rows| ==> RowFits(plan.zone, rows[k]))
            && var received := Receive(hmac, Served(hmac, plan, mac, when, configured, rows), plan.secret, mac, plan.keyName);
            && received.Some?
            && Updated(plan.mode, MapSet(RrOfRow(), RecordsOf(a, a.row.currentVersion)), received.value)
               == MapSet(RrOfRow(), RecordsOf(s, s.row.currentVersion))
  {
    EmptyStoreInv();
    SecondaryFollowsRun(hmac, states, steps, i, j, q, ref, now, when, configured);
    CopyIsSource(hmac, states, steps, h, i, q, ref, now);
    var a, s, plan := states[h].zones[q.qname], states[i].zones[q.qname], Authorize(hmac, states[i], q, ref, now).1.plan;
    var rows := Stream(states[j].zones[q.qname], plan, q.clientSerial).value;
    var mac := q.tsig.value.data.mac;
    var received := Receive(hmac, Served(hmac, plan, mac, when, configured, rows), plan.secret, mac, plan.keyName);
    CopyOnlyForIncrements(plan.mode, MapSet(RrOfRow(), RecordsOf(s, plan.minVersion)), MapSet(RrOfRow(), RecordsOf(a, a.row.currentVersion)),
                          received.value);
  }
}
