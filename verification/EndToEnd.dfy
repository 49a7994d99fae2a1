/**
 A secondary's transfer from end to end: the request it builds is authorized, the stream the
 server opens for it arrives whole, and what it makes of the answers is the zone's snapshot.
 */
module EndToEnd {
  import opened Basics
  import opened Names
  import opened NameCodec
  import opened Records
  import opened Serial
  import opened Wire
  import opened QueryParser
  import opened Signing
  import opened Client
  import opened RoundTrips
  import opened SignedStream
  import opened Responses
  import opened Delivery
  import opened Store
  import opened History
  import opened Transfer
  import opened Framing
  import opened Plans
  import opened KeyFacts
  import opened Authorization
  import opened Convergence

  // ---------------------------------------------------------------------------
  // Authorization of a genuine request
  // ---------------------------------------------------------------------------

  /** The request of a secondary that holds the key's secret. */
  function GenuineRequest(hmac: Hmac, qid: int, zone: string, qtype: int, keyName: string, secret: Bytes,
                          when: int, fudge: int, serial: Option<int>): Bytes
    requires IsU16(qid) && IsCanonical(zone) && IsU16(qtype) && IsKeyName(keyName) && IsU16(fudge)
    requires serial.Some? ==> IsU32(serial.value)
  {
    BuildTsigQuery(hmac, qid, zone, qtype, keyName, secret, when, fudge, AuthorityFor(zone, serial))
  }

  lemma {:induction false} KeyIsResolved(keys: map<string, KeyRow>, id: string, keyName: string, t: TsigData, now: int)
    requires KeysWellFormed(keys) && InForce(keys, id, keyName, now) && InWindow(t.time, t.fudge, now)
    ensures ResolveKey(keys, keyName, t, now) == Ok(id)
  {
    TimeTest(t.time, t.fudge, now);
    ResolutionIsExact(keys, keyName, t, now, id);
  }

  /** The server parses the request into a transfer query that carries the right MAC. */
  lemma {:induction false} RequestIsGenuine(hmac: Hmac, qid: int, zone: string, qtype: int, keyName: string, secret: Bytes,
                                            when: int, fudge: int, serial: Option<int>) returns (q: Query, mac: Mac)
    requires RequestFields(qid, zone, qtype, keyName, when, fudge, serial) && qtype in {TYPE_AXFR, TYPE_IXFR}
    ensures ParseQuery(GenuineRequest(hmac, qid, zone, qtype, keyName, secret, when, fudge, serial)) == Ok(q)
    ensures TransferQuery(q) && q.qname == zone && q.qtype == qtype && q.id == qid && q.clientSerial == serial
    ensures q.tsig.Some? && q.tsig.value.name == keyName && q.tsig.value.data.time == when && q.tsig.value.data.fudge == fudge
    ensures q.tsig.value.data.mac == mac && ExpectedRequestMac(hmac, secret, q) == Ok(mac)
  {
    RequestRoundTrip(hmac, qid, zone, qtype, keyName, secret, when, fudge, serial);
    RequestDigestAgrees(hmac, qid, zone, qtype, keyName, secret, when, fudge, serial, secret);
    q := ParseQuery(GenuineRequest(hmac, qid, zone, qtype, keyName, secret, when, fudge, serial)).value;
    mac := RequestMac(hmac, qid, zone, qtype, keyName, secret, when, fudge, AuthorityFor(zone, serial));
  }

  /** The conditions under which a parsed query is authorized. */
  lemma {:induction false} GenuineIsAuthorized(hmac: Hmac, st: Store, q: Query, ref: string, now: int, id: string, mac: Mac)
    requires Inv(st) && TransferQuery(q) && q.tsig.Some? && q.qname in st.zones && !RefTaken(st.zones, ref)
    requires ResolveKey(st.zones[q.qname].keys, q.tsig.value.name, q.tsig.value.data, now) == Ok(id)
    requires ExpectedRequestMac(hmac, st.zones[q.qname].keys[id].secret, q) == Ok(mac) && q.tsig.value.data.mac == mac
    ensures Authorize(hmac, st, q, ref, now).1.Authorized?
    ensures Authorize(hmac, st, q, ref, now).1.plan.secret == st.zones[q.qname].keys[id].secret
  {
    var s := st.zones[q.qname];
    InvAt(st, q.qname);
    ScopeExists(s.row.currentVersion, s, q);
  }

  /**
   Every request a secondary builds with the secret of a key in force is authorized, in every
   reachable store, for any keyed hash.
   */
  lemma {:induction false} SecondaryIsAuthorized(hmac: Hmac, st: Store, ref: string, now: int, qid: int, zone: string, qtype: int,
                                                 keyName: string, id: string, when: int, fudge: int, serial: Option<int>)
    returns (q: Query)
    requires Inv(st) && zone in st.zones && !RefTaken(st.zones, ref)
    requires RequestFields(qid, zone, qtype, keyName, when, fudge, serial) && qtype in {TYPE_AXFR, TYPE_IXFR}
    requires InForce(st.zones[zone].keys, id, keyName, now) && InWindow(when, fudge, now)
    ensures ParseQuery(GenuineRequest(hmac, qid, zone, qtype, keyName, st.zones[zone].keys[id].secret, when, fudge, serial)) == Ok(q)
    ensures TransferQuery(q) && Authorize(hmac, st, q, ref, now).1.Authorized?
  {
    var mac: Mac;
    var secret := st.zones[zone].keys[id].secret;
    q, mac := RequestIsGenuine(hmac, qid, zone, qtype, keyName, secret, when, fudge, serial);
    InvAt(st, zone);
    KeyIsResolved(st.zones[zone].keys, id, keyName, q.tsig.value.data, now);
    GenuineIsAuthorized(hmac, st, q, ref, now, id, mac);
  }

  // ---------------------------------------------------------------------------
  // The transfer as a whole
  // ---------------------------------------------------------------------------

  function QuestionType(mode: Mode): int {
    if mode == Axfr then TYPE_AXFR else TYPE_IXFR
  }

  /** What stays the same while a plan is served from the time `when` on. */
  function SessionOf(plan: Plan, requestMac: Bytes, when: int): Session
    requires IsKeyName(plan.keyName)
  {
    Session(plan.secret, KeyWire(plan.keyName), requestMac, when, plan.qid)
  }

  lemma {:induction false} RowsArePrintable(zone: string, rows: seq<Row>)
    requires forall i :: 0 <= i < |rows| ==> RowFits(zone, rows[i])
    ensures var rrs := MapSeq(RrOfRow(), rows);
            RrsOk(rrs) && forall i :: 0 <= i < |rrs| ==> StoredRr(rrs[i])
  {
  }

  /** The byte stream in which a plan's records are served. */
  ghost function Served(hmac: Hmac, plan: Plan, requestMac: Bytes, when: int, configured: int, rows: seq<Row>): Bytes
    requires IsKeyName(plan.keyName) && IsCanonical(plan.zone) && IsU16(plan.qid) && IsU16(|requestMac|)
    requires 0 <= when < 0x1_0000_0000_0000
    requires forall i :: 0 <= i < |rows| ==> RowFits(plan.zone, rows[i])
  {
    var s, rrs := SessionOf(plan, requestMac, when), MapSeq(RrOfRow(), rows);
    RowsArePrintable(plan.zone, rows);
    TransferDelivered(hmac, s, plan.keyName, plan.zone, QuestionType(plan.mode), rrs, configured);
    var sent := AllSent(hmac, s, PackedPlains(s, plan.zone, QuestionType(plan.mode), rrs, configured));
    Frames(sent, |sent|)
  }

  lemma {:induction false} ServedIsReceived(hmac: Hmac, plan: Plan, requestMac: Bytes, when: int, configured: int, rows: seq<Row>)
    requires IsKeyName(plan.keyName) && IsCanonical(plan.zone) && IsU16(plan.qid) && IsU16(|requestMac|)
    requires 0 <= when < 0x1_0000_0000_0000
    requires forall i :: 0 <= i < |rows| ==> RowFits(plan.zone, rows[i])
    ensures Receive(hmac, Served(hmac, plan, requestMac, when, configured, rows), plan.secret, requestMac, plan.keyName)
         == Some(MapSeq(RrOfRow(), rows))
  {
    var s, rrs := SessionOf(plan, requestMac, when), MapSeq(RrOfRow(), rows);
    RowsArePrintable(plan.zone, rows);
    TransferDelivered(hmac, s, plan.keyName, plan.zone, QuestionType(plan.mode), rrs, configured);
  }

  /**
   From the authorization to the secondary's copy. Let `s` be the zone when the transfer was
   authorized, and `t` the zone when it is read, with the same stream (which the pin ensures).
   Then the transfer finds all it needs; the client accepts the byte stream, whatever the
   message budget; and its copy of the version it claimed becomes the target's snapshot.
   */
  lemma {:induction false} TransferConverges(hmac: Hmac, zone: string, s: ZoneState, t: ZoneState, q: Query, plan: Plan, when: int, configured: int)
    requires ZoneInv(zone, s) && TransferQuery(q) && q.tsig.Some? && plan.zone == zone && plan.qid == q.id
    requires plan.targetVersion == s.row.currentVersion && plan.targetSerial == s.row.currentSerial
    requires ScopeOk(s, q, plan.mode, plan.minVersion)
    requires IsKeyName(plan.keyName) && 0 <= when < 0x1_0000_0000_0000
    requires Stream(t, plan, q.clientSerial) == Stream(s, plan, q.clientSerial)
    requires Packable(zone, s, plan.minVersion)
    requires plan.mode == Ixfr ==> NoLowerSoa(zone, s, plan.minVersion, plan.targetVersion)
    ensures Stream(t, plan, q.clientSerial).Some?
    ensures var rows, mac := Stream(t, plan, q.clientSerial).value, q.tsig.value.data.mac;
            && (forall i :: 0 <= i < |rows| ==> RowFits(zone, rows[i]))
            && var received := Receive(hmac, Served(hmac, plan, mac, when, configured, rows), plan.secret, mac, plan.keyName);
            && received.Some?
            && Updated(plan.mode, MapSet(RrOfRow(), RecordsOf(s, plan.minVersion)), received.value)
               == MapSet(RrOfRow(), RecordsOf(s, plan.targetVersion))
  {
    StreamFitsIff(zone, s, q, plan);
    var rows := Stream(s, plan, q.clientSerial).value;
    ServedIsReceived(hmac, plan, q.tsig.value.data.mac, when, configured, rows);
    SecondaryConverges(zone, s, q, plan);
  }
}
