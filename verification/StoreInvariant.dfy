/** Every transaction keeps the invariant of the whole store. */
module StoreInvariant {
  import opened Store
  import opened History

  lemma {:induction false} EmptyStoreInv()
    ensures Inv(Store(map[], []))
  {
  }

  lemma {:induction false} CreateKeepsInv(st: Store, zone: string, z: NewZone)
    requires Inv(st) && NewZoneOk(zone, z)
    ensures Inv(CreateZone(st, zone, z).0)
  {
    if zone !in st.zones {
      InitialZoneInv(zone, z);
      InvUpdate(st, zone, InitialZone(zone, z), st.tasks);
    }
  }

  lemma {:induction false} RetentionKeepsInv(st: Store, zone: string, retain: int)
    requires Inv(st)
    ensures Inv(SetRetention(st, zone, retain).0)
  {
    if zone in st.zones {
      var s := st.zones[zone];
      InvAt(st, zone);
      assert ZoneInv(zone, s.(row := s.row.(retain := retain)));
      InvUpdate(st, zone, s.(row := s.row.(retain := retain)), Enqueue(st.tasks, zone));
    }
  }

  lemma {:induction false} StorePublishKeepsInv(st: Store, zone: string, req: Request)
    requires Inv(st) && RequestOk(req)
    ensures Inv(Publish(st, zone, req).0)
  {
    if zone in st.zones {
      InvAt(st, zone);
      PublishKeepsInv(zone, st.zones[zone], req);
      var (st', result) := Publish(st, zone, req);
      InvUpdate(st, zone, PublishZone(zone, st.zones[zone], req).0, st'.tasks);
    }
  }

  lemma {:induction false} StoreInstallKeepsInv(st: Store, zone: string, k: NewKey, now: int)
    requires Inv(st)
    ensures Inv(InstallKey(st, zone, k, now).0)
  {
    if zone in st.zones {
      InvAt(st, zone);
      InstallKeepsInv(zone, st.zones[zone], k, now);
      InvUpdate(st, zone, InstallKeyZone(st.zones[zone], k, now).0, st.tasks);
    }
  }

  lemma {:induction false} StoreRevokeKeepsInv(st: Store, zone: string, keyId: string)
    requires Inv(st)
    ensures Inv(RevokeKey(st, zone, keyId).0)
  {
    if zone in st.zones {
      InvAt(st, zone);
      RevokeKeepsInv(zone, st.zones[zone], keyId);
      InvUpdate(st, zone, RevokeKeyZone(st.zones[zone], keyId).0, st.tasks);
    }
  }

  lemma {:induction false} PinsAreFree(zone: string, s: ZoneState, pins: map<string, Pin>)
    requires ZoneInv(zone, s)
    ensures ZoneInv(zone, s.(pins := pins))
  {
  }

  lemma {:induction false} PinsKeepInv(st: Store, zone: string, ref: string, now: int)
    requires Inv(st)
    ensures Inv(Heartbeat(st, zone, ref, now)) && Inv(Release(st, zone, ref, now))
  {
    if zone in st.zones && ref in st.zones[zone].pins {
      var s := st.zones[zone];
      InvAt(st, zone);
      var beat, done := s.pins[ref := s.pins[ref].(lastSeen := now)], s.pins[ref := s.pins[ref].(open := false, lastSeen := now)];
      PinsAreFree(zone, s, beat);
      PinsAreFree(zone, s, done);
      InvUpdate(st, zone, s.(pins := beat), st.tasks);
      InvUpdate(st, zone, s.(pins := done), st.tasks);
    }
  }

  lemma {:induction false} StoreCleanKeepsInv(st: Store, id: nat, now: int)
    requires Inv(st) && id < |st.tasks|
    ensures Inv(RunCleanup(st, id, now))
  {
    var zone := st.tasks[id].zone;
    var tasks := st.tasks[id := st.tasks[id].(state := Done)];
    if zone in st.zones {
      InvAt(st, zone);
      CleanKeepsInv(zone, st.zones[zone], now);
      InvUpdate(st, zone, CleanZone(st.zones[zone], now), tasks);
    }
  }
}
