/**
  The retention policy of scripts/src/base-backup.ts in the terms of its documentation:
  completion times, ids and calendar keys, with none of the order that the passes sort by.
*/
module RetentionPolicy {
  import opened Calendar
  import opened Retention

  /** The completion time of every backup, by id. */
  type Stamps = map<nat, Timestamp>

  ghost function Backups(stamps: Stamps): (s: set<Backup>)
    ensures DistinctIds(s)
  {
    set id | id in stamps :: Describe(id, stamps[id])
  }

  /** The keys of the buckets that hold a later backup, the greater id being later at the same instant. */
  function LaterKeys(stamps: Stamps, id: nat, key: Timestamp -> int): set<int>
    requires id in stamps
  {
    set other | other in stamps && (stamps[other].Instant() > stamps[id].Instant()
                                    || (stamps[other].Instant() == stamps[id].Instant() && other > id)) :: key(stamps[other])
  }

  /** No backup of its bucket is later, and fewer than `limit` buckets hold a later one. */
  predicate NewestOf(stamps: Stamps, id: nat, limit: nat, key: Timestamp -> int) {
    && id in stamps
    && (forall other | other in stamps && key(stamps[other]) == key(stamps[id]) ::
          stamps[other].Instant() < stamps[id].Instant() || (stamps[other].Instant() == stamps[id].Instant() && other <= id))
    && |LaterKeys(stamps, id, key)| < limit
  }

  /** The newest of one of the latest 7 days, 4 weeks or 12 months. */
  predicate Kept(stamps: Stamps, id: nat) {
    || NewestOf(stamps, id, 7, t => UtcDay(t))
    || NewestOf(stamps, id, 4, t => UtcWeek(t))
    || NewestOf(stamps, id, 12, t => UtcMonth(t))
  }

  lemma {:induction false} LaterKeysAre(stamps: Stamps, o: seq<Backup>, bucket: Backup -> int, key: Timestamp -> int, id: nat)
    requires Elements(o) == Backups(stamps) && id in stamps
    requires forall x | x in stamps :: bucket(Describe(x, stamps[x])) == key(stamps[x])
    ensures NewerKeys(o, bucket, Describe(id, stamps[id])) == LaterKeys(stamps, id, key)
  {
    hide UtcDay, UtcWeek, UtcMonth, Timestamp.Instant;
    var b := Describe(id, stamps[id]);
    forall k ensures k in NewerKeys(o, bucket, b) <==> k in LaterKeys(stamps, id, key) {
      if k in NewerKeys(o, bucket, b) {
        var c :| c in o && Newer(c, b) && bucket(c) == k;
        assert c in Elements(o);
        var x :| x in stamps && c == Describe(x, stamps[x]);
      }
      if k in LaterKeys(stamps, id, key) {
        var x :| x in stamps && key(stamps[x]) == k
          && (stamps[x].Instant() > stamps[id].Instant() || (stamps[x].Instant() == stamps[id].Instant() && x > id));
        assert Describe(x, stamps[x]) in Elements(o);
      }
    }
  }

  lemma {:induction false} RepresentsIff(stamps: Stamps, o: seq<Backup>, limit: nat, bucket: Backup -> int, key: Timestamp -> int, id: nat)
    requires Elements(o) == Backups(stamps) && id in stamps
    requires forall x | x in stamps :: bucket(Describe(x, stamps[x])) == key(stamps[x])
    ensures Represents(o, limit, bucket, Describe(id, stamps[id])) <==> NewestOf(stamps, id, limit, key)
  {
    hide UtcDay, UtcWeek, UtcMonth, Timestamp.Instant, NewerKeys, LaterKeys;
    LaterKeysAre(stamps, o, bucket, key, id);
    var b := Describe(id, stamps[id]);
    assert b in Elements(o);
    if forall c | c in o && bucket(c) == bucket(b) :: !Newer(c, b) {
      forall x | x in stamps && key(stamps[x]) == key(stamps[id])
        ensures stamps[x].Instant() < stamps[id].Instant() || (stamps[x].Instant() == stamps[id].Instant() && x <= id)
      {
        assert Describe(x, stamps[x]) in Elements(o);
        assert !Newer(Describe(x, stamps[x]), b);
      }
    }
    if NewestOf(stamps, id, limit, key) {
      forall c | c in o && bucket(c) == bucket(b) ensures !Newer(c, b) {
        assert c in Elements(o);
        var x :| x in stamps && c == Describe(x, stamps[x]);
      }
    }
  }

  /** The policy keeps exactly what the documentation says, of every history. */
  lemma {:induction false} KeptExactly(stamps: Stamps, id: nat)
    ensures id in Ids(Keep(Backups(stamps))) <==> Kept(stamps, id)
  {
    hide UtcDay, UtcWeek, UtcMonth, Timestamp.Instant, NewestOf, Represents;
    var s := Backups(stamps);
    var o := Ordered(s);
    RetentionGuarantees(s);
    if id in stamps {
      var b := Describe(id, stamps[id]);
      RepresentsIff(stamps, o, 7, Day, t => UtcDay(t), id);
      RepresentsIff(stamps, o, 4, Week, t => UtcWeek(t), id);
      RepresentsIff(stamps, o, 12, Month, t => UtcMonth(t), id);
      assert b in Keep(s) <==> Kept(stamps, id);
      KeptById(stamps, b);
    } else {
      NotKept(stamps, id);
    }
  }

  lemma {:induction false} KeptById(stamps: Stamps, b: Backup)
    requires b in Backups(stamps)
    ensures b.id in Ids(Keep(Backups(stamps))) <==> b in Keep(Backups(stamps))
  {
    hide Describe;
    RetentionGuarantees(Backups(stamps));
    if c :| c in Keep(Backups(stamps)) && c.id == b.id {
      assert c in Backups(stamps);
    }
  }

  lemma {:induction false} NotKept(stamps: Stamps, id: nat)
    requires id !in stamps
    ensures id !in Ids(Keep(Backups(stamps))) && !Kept(stamps, id)
  {
    hide Describe;
    RetentionGuarantees(Backups(stamps));
    forall b | b in Keep(Backups(stamps)) ensures b.id != id {
      assert b in Backups(stamps);
    }
  }

  /** No history loses its latest backup. */
  lemma {:induction false} LatestKept(stamps: Stamps, id: nat)
    requires id in stamps
    requires forall other | other in stamps ::
               stamps[other].Instant() < stamps[id].Instant() || (stamps[other].Instant() == stamps[id].Instant() && other <= id)
    ensures Kept(stamps, id) && id in Ids(Keep(Backups(stamps)))
  {
    hide Timestamp.Instant, UtcDay;
    assert LaterKeys(stamps, id, t => UtcDay(t)) == {};
    KeptExactly(stamps, id);
  }

  /** Sorting puts the latest completion first, the greatest id first among equals, and so on down. */
  lemma {:induction false} SortedLatestFirst(manifests: seq<Backup>)
    requires DistinctIdsIn(manifests)
    ensures var o := NewestFirst(manifests);
            && |o| == |manifests|
            && (forall b | b in manifests :: o[0].instant > b.instant || (o[0].instant == b.instant && o[0].id >= b.id))
            && forall i, j | 0 <= i < j < |o| :: o[i].instant > o[j].instant || (o[i].instant == o[j].instant && o[i].id > o[j].id)
  {
    var o := NewestFirst(manifests);
    assert |multiset(o)| == |multiset(manifests)|;
    NewestFirstDescending(manifests);
    forall b | b in manifests ensures o[0].instant > b.instant || (o[0].instant == b.instant && o[0].id >= b.id) {
      assert b in multiset(manifests);
      var i :| 0 <= i < |o| && o[i] == b;
    }
  }
}
