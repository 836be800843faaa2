/**
  The grandfather-father-son retention policy of scripts/src/base-backup.ts.

  `Select` is one pass of `keepBuckets` over backups ordered newest first, and
  `Keep` the union of the three passes.  The bucket functions are parameters of
  every lemma about one pass, so those lemmas hold for any calendar.
*/
module Retention {
  import opened Calendar

  const DAILY := 7
  const WEEKLY := 4
  const MONTHLY := 12

  // ---------- Backups ----------

  /**
    What the policy reads of a manifest: the completion instant and the three bucket
    keys.  A UUIDv7 is ordered by its text exactly as by its value, so an id is its value.
  */
  datatype Backup = Backup(id: nat, instant: int, day: int, week: int, month: int)

  function Describe(id: nat, completedAt: Timestamp): (b: Backup)
    ensures b.id == id
  {
    Backup(id, completedAt.Instant(), UtcDay(completedAt), UtcWeek(completedAt), UtcMonth(completedAt))
  }

  function Day(b: Backup): int { b.day }

  function Week(b: Backup): int { b.week }

  function Month(b: Backup): int { b.month }

  // ---------- Newest first ----------

  predicate Newer(a: Backup, b: Backup) {
    || a.instant > b.instant
    || (a.instant == b.instant && a.id > b.id)
  }

  predicate DistinctIds(s: set<Backup>) {
    forall a, b | a in s && b in s && a.id == b.id :: a == b
  }

  predicate Descending(o: seq<Backup>) {
    forall i, j | 0 <= i < j < |o| :: Newer(o[i], o[j])
  }

  function Elements(o: seq<Backup>): set<Backup> {
    set b | b in o
  }

  function Insert(b: Backup, o: seq<Backup>): (r: seq<Backup>)
    ensures multiset(r) == multiset(o) + multiset{b}
  {
    if o == [] || !Newer(o[0], b) then [b] + o
    else
      assert o == [o[0]] + o[1..];
      [o[0]] + Insert(b, o[1..])
  }

  /** `toSorted` with the source's comparator: latest completion first, then greatest id. */
  function NewestFirst(manifests: seq<Backup>): (r: seq<Backup>)
    ensures multiset(r) == multiset(manifests)
  {
    if manifests == [] then []
    else
      assert manifests == [manifests[0]] + manifests[1..];
      Insert(manifests[0], NewestFirst(manifests[1..]))
  }

  lemma {:induction false} InsertDescending(b: Backup, o: seq<Backup>)
    requires Descending(o) && forall x | x in o :: x.id != b.id
    ensures Descending(Insert(b, o))
  {
    if o != [] && Newer(o[0], b) {
      InsertDescending(b, o[1..]);
      forall x | x in Insert(b, o[1..]) ensures Newer(o[0], x) {
        assert x in multiset(Insert(b, o[1..]));
        if x != b { assert x in o[1..]; }
      }
    }
  }

  predicate DistinctIdsIn(manifests: seq<Backup>) {
    forall i, j | 0 <= i < j < |manifests| :: manifests[i].id != manifests[j].id
  }

  lemma {:induction false} NewestFirstDescending(manifests: seq<Backup>)
    requires DistinctIdsIn(manifests)
    ensures Descending(NewestFirst(manifests))
  {
    if manifests != [] {
      var rest := NewestFirst(manifests[1..]);
      NewestFirstDescending(manifests[1..]);
      forall x | x in rest ensures x.id != manifests[0].id {
        assert x in multiset(rest);
        assert x in manifests[1..];
      }
      InsertDescending(manifests[0], rest);
    }
  }

  ghost function Newest(s: set<Backup>): (b: Backup)
    requires s != {} && DistinctIds(s)
    ensures b in s && forall x | x in s && x != b :: Newer(b, x)
  {
    var c :| c in s;
    if s - {c} == {} then
      assert forall x | x in s && x != c :: x in s - {c};
      c
    else
      var d := Newest(s - {c});
      assert c.id != d.id;
      assert forall x | x in s :: x == c || x in s - {c};
      if Newer(c, d) then c else d
  }

  /** The one sequence that lists a set newest first. */
  ghost function Ordered(s: set<Backup>): (o: seq<Backup>)
    requires DistinctIds(s)
    ensures Descending(o) && Elements(o) == s
  {
    if s == {} then []
    else
      var b := Newest(s);
      var rest := Ordered(s - {b});
      assert forall x :: x in rest <==> x in Elements(rest);
      assert forall x :: x in [b] + rest <==> x == b || x in rest;
      [b] + rest
  }

  lemma {:induction false} NoElements(o: seq<Backup>)
    ensures o == [] <==> Elements(o) == {}
  {
    if o != [] { assert o[0] in Elements(o); }
  }

  lemma {:induction false} DescendingUnique(o: seq<Backup>, p: seq<Backup>)
    requires Descending(o) && Descending(p) && Elements(o) == Elements(p)
    ensures o == p
  {
    NoElements(o);
    NoElements(p);
    if o != [] {
      assert o[0] in Elements(o) && p[0] in Elements(p);
      assert o[0] == p[0];
      forall b ensures b in Elements(o[1..]) <==> b in Elements(p[1..]) {
        assert b in o[1..] <==> b in Elements(o) && b != o[0];
        assert b in p[1..] <==> b in Elements(p) && b != p[0];
      }
      DescendingUnique(o[1..], p[1..]);
    }
  }

  // ---------- One pass of keepBuckets ----------

  function Select(ordered: seq<Backup>, limit: nat, bucket: Backup -> int, observed: set<int>): set<Backup> {
    if ordered == [] then {}
    else if bucket(ordered[0]) in observed then Select(ordered[1..], limit, bucket, observed)
    else if |observed| >= limit then {}
    else {ordered[0]} + Select(ordered[1..], limit, bucket, observed + {bucket(ordered[0])})
  }

  function NewerKeys(o: seq<Backup>, bucket: Backup -> int, b: Backup): set<int> {
    set c | c in o && Newer(c, b) :: bucket(c)
  }

  /** The policy in words: newest of its bucket, and fewer than `limit` later buckets. */
  predicate Represents(o: seq<Backup>, limit: nat, bucket: Backup -> int, b: Backup) {
    && b in o
    && (forall c | c in o && bucket(c) == bucket(b) :: !Newer(c, b))
    && |NewerKeys(o, bucket, b)| < limit
  }

  ghost predicate RepresentsAfter(o: seq<Backup>, limit: nat, bucket: Backup -> int, observed: set<int>, b: Backup) {
    && b in o
    && bucket(b) !in observed
    && (forall c | c in o && bucket(c) == bucket(b) :: !Newer(c, b))
    && |observed + NewerKeys(o, bucket, b)| < limit
  }

  lemma {:induction false} NewerKeysOfHead(o: seq<Backup>, bucket: Backup -> int)
    requires o != [] && Descending(o)
    ensures NewerKeys(o, bucket, o[0]) == {}
  {
    assert forall c | c in o[1..] :: !Newer(c, o[0]);
    assert forall c | c in o :: c == o[0] || c in o[1..];
  }

  lemma {:induction false} NewerKeysInTail(o: seq<Backup>, bucket: Backup -> int, b: Backup)
    requires o != [] && Descending(o) && b in o[1..]
    ensures b != o[0] && Newer(o[0], b)
    ensures NewerKeys(o, bucket, b) == {bucket(o[0])} + NewerKeys(o[1..], bucket, b)
  {
    assert forall c :: c in o <==> c == o[0] || c in o[1..];
  }

  lemma {:induction false} RepresentsHead(o: seq<Backup>, limit: nat, bucket: Backup -> int, observed: set<int>)
    requires o != [] && Descending(o) && |observed| <= limit
    ensures RepresentsAfter(o, limit, bucket, observed, o[0]) <==> bucket(o[0]) !in observed && |observed| < limit
  {
    NewerKeysOfHead(o, bucket);
    assert observed + {} == observed;
    forall c | c in o ensures !Newer(c, o[0]) {
      if c != o[0] { assert c in o[1..]; }
    }
  }

  lemma {:induction false} RepresentsInTail(o: seq<Backup>, limit: nat, bucket: Backup -> int, observed: set<int>, b: Backup)
    requires o != [] && Descending(o) && |observed| <= limit && b != o[0]
    ensures RepresentsAfter(o, limit, bucket, observed, b) <==>
              && (bucket(o[0]) !in observed ==> |observed| < limit)
              && RepresentsAfter(o[1..], limit, bucket, observed + {bucket(o[0])}, b)
  {
    assert forall c :: c in o <==> c == o[0] || c in o[1..];
    if b in o[1..] {
      NewerKeysInTail(o, bucket, b);
      var all := observed + NewerKeys(o, bucket, b);
      assert all == observed + {bucket(o[0])} + NewerKeys(o[1..], bucket, b);
      SubsetSize(observed, all);
    }
  }

  lemma {:induction false} SelectMeaningFrom(o: seq<Backup>, limit: nat, bucket: Backup -> int, observed: set<int>, b: Backup)
    requires Descending(o) && |observed| <= limit
    ensures b in Select(o, limit, bucket, observed) <==> RepresentsAfter(o, limit, bucket, observed, b)
    decreases |o|
  {
    if o != [] {
      var inner := observed + {bucket(o[0])};
      if bucket(o[0]) in observed { assert inner == observed; }
      if b == o[0] {
        RepresentsHead(o, limit, bucket, observed);
        assert bucket(o[0]) in observed ==> !RepresentsAfter(o[1..], limit, bucket, observed, b);
      } else {
        RepresentsInTail(o, limit, bucket, observed, b);
      }
      if |inner| <= limit { SelectMeaningFrom(o[1..], limit, bucket, inner, b); }
    }
  }

  lemma {:induction false} SubsetSize<T>(a: set<T>, b: set<T>)
    requires a <= b
    ensures |a| <= |b|
  {
    assert b == a + (b - a);
  }

  /** One pass keeps exactly the newest backup of each of the latest `limit` buckets. */
  lemma {:induction false} SelectMeaning(o: seq<Backup>, limit: nat, bucket: Backup -> int, b: Backup)
    requires Descending(o)
    ensures b in Select(o, limit, bucket, {}) <==> Represents(o, limit, bucket, b)
  {
    SelectMeaningFrom(o, limit, bucket, {}, b);
    assert {} + NewerKeys(o, bucket, b) == NewerKeys(o, bucket, b);
  }

  lemma {:induction false} SelectBounded(o: seq<Backup>, limit: nat, bucket: Backup -> int, observed: set<int>)
    requires |observed| <= limit
    ensures |Select(o, limit, bucket, observed)| <= limit - |observed|
    ensures Select(o, limit, bucket, observed) <= Elements(o)
    decreases |o|
  {
    if o != [] {
      assert forall b :: b in o[1..] ==> b in o;
      if bucket(o[0]) in observed {
        SelectBounded(o[1..], limit, bucket, observed);
      } else if |observed| < limit {
        SelectBounded(o[1..], limit, bucket, observed + {bucket(o[0])});
      }
    }
  }

  function Restrict(o: seq<Backup>, s: set<Backup>): seq<Backup> {
    if o == [] then [] else (if o[0] in s then [o[0]] else []) + Restrict(o[1..], s)
  }

  lemma {:induction false} RestrictOrdered(o: seq<Backup>, s: set<Backup>)
    requires Descending(o)
    ensures Descending(Restrict(o, s)) && Elements(Restrict(o, s)) == Elements(o) * s
  {
    if o != [] {
      RestrictOrdered(o[1..], s);
      assert o == [o[0]] + o[1..];
      var r := Restrict(o[1..], s);
      forall b | b in r ensures Newer(o[0], b) { assert b in Elements(r); assert b in o[1..]; }
      forall b ensures b in Restrict(o, s) <==> b in o && b in s {
        assert b in r <==> b in Elements(r);
      }
    }
  }

  /** Dropping backups that a pass did not select changes nothing the pass selects. */
  lemma {:induction false} SelectIgnoresUnselected(o: seq<Backup>, s: set<Backup>, limit: nat, bucket: Backup -> int, observed: set<int>)
    requires Select(o, limit, bucket, observed) <= s
    ensures Select(Restrict(o, s), limit, bucket, observed) == Select(o, limit, bucket, observed)
    decreases |o|
  {
    if o != [] {
      var h, t := o[0], o[1..];
      var r := Restrict(t, s);
      if h in s { assert ([h] + r)[1..] == r; } else { assert [] + r == r; }
      if bucket(h) in observed {
        SelectIgnoresUnselected(t, s, limit, bucket, observed);
      } else if |observed| >= limit {
        SelectSaturated(Restrict(o, s), limit, bucket, observed);
      } else {
        assert h in Select(o, limit, bucket, observed);
        SelectIgnoresUnselected(t, s, limit, bucket, observed + {bucket(h)});
      }
    }
  }

  lemma {:induction false} SelectSaturated(o: seq<Backup>, limit: nat, bucket: Backup -> int, observed: set<int>)
    requires |observed| >= limit
    ensures Select(o, limit, bucket, observed) == {}
    decreases |o|
  {
    if o != [] && bucket(o[0]) in observed { SelectSaturated(o[1..], limit, bucket, observed); }
  }

  /** What a pass selects from a larger set it also selects from any part that holds it. */
  lemma {:induction false} SelectFromPart(o: seq<Backup>, s: set<Backup>, limit: nat, bucket: Backup -> int, observed: set<int>, fewer: set<int>)
    requires fewer <= observed && |observed| <= limit
    ensures Select(o, limit, bucket, observed) * s <= Select(Restrict(o, s), limit, bucket, fewer)
    decreases |o|
  {
    if o != [] {
      var h, t := o[0], o[1..];
      var r := Restrict(t, s);
      if h in s { assert ([h] + r)[1..] == r; } else { assert [] + r == r; }
      var key := bucket(h);
      if key in observed {
        if h in s && key !in fewer {
          SubsetSize(fewer, observed - {key});
          SelectFromPart(t, s, limit, bucket, observed, fewer + {key});
        } else {
          SelectFromPart(t, s, limit, bucket, observed, fewer);
        }
      } else if |observed| < limit {
        SubsetSize(fewer, observed);
        SelectFromPart(t, s, limit, bucket, observed + {key}, if h in s then fewer + {key} else fewer);
      }
    }
  }

  // ---------- The policy ----------

  function KeepOrdered(o: seq<Backup>): set<Backup> {
    Select(o, DAILY, Day, {}) + Select(o, WEEKLY, Week, {}) + Select(o, MONTHLY, Month, {})
    + (if o == [] then {} else {o[0]})
  }

  /** What the policy keeps of a set of backups. */
  ghost function Keep(s: set<Backup>): set<Backup>
    requires DistinctIds(s)
  {
    KeepOrdered(Ordered(s))
  }

  lemma {:induction false} NewestSelected(o: seq<Backup>, limit: nat, bucket: Backup -> int)
    requires o != [] && limit >= 1
    ensures o[0] in Select(o, limit, bucket, {})
  {
  }

  /** The newest backup represents all three of its buckets, so 7 + 4 + 12 - 2 bounds the kept set. */
  lemma {:induction false} KeepOrderedBounded(o: seq<Backup>)
    ensures |KeepOrdered(o)| <= 21 && KeepOrdered(o) <= Elements(o)
  {
    SelectBounded(o, DAILY, Day, {});
    SelectBounded(o, WEEKLY, Week, {});
    SelectBounded(o, MONTHLY, Month, {});
    if o != [] {
      var d, w, m := Select(o, DAILY, Day, {}), Select(o, WEEKLY, Week, {}), Select(o, MONTHLY, Month, {});
      NewestSelected(o, DAILY, Day);
      NewestSelected(o, WEEKLY, Week);
      NewestSelected(o, MONTHLY, Month);
      var newest := {o[0]};
      assert KeepOrdered(o) == newest + (d - newest) + (w - newest) + (m - newest);
    }
  }

  lemma {:induction false} KeepOrderedMeaning(o: seq<Backup>, b: Backup)
    requires Descending(o)
    ensures b in KeepOrdered(o) <==>
              || Represents(o, DAILY, Day, b)
              || Represents(o, WEEKLY, Week, b)
              || Represents(o, MONTHLY, Month, b)
  {
    SelectMeaning(o, DAILY, Day, b);
    SelectMeaning(o, WEEKLY, Week, b);
    SelectMeaning(o, MONTHLY, Month, b);
    if o != [] { NewestSelected(o, DAILY, Day); }
  }

  /**
    Retention guarantees: a backup is kept exactly when it is the newest of one of
    the latest 7 days, 4 weeks or 12 months; the newest backup is always kept; and
    at most 21 backups are.
  */
  lemma {:induction false} RetentionGuarantees(s: set<Backup>)
    requires DistinctIds(s)
    ensures var o := Ordered(s);
            forall b :: b in Keep(s) <==>
              || Represents(o, DAILY, Day, b)
              || Represents(o, WEEKLY, Week, b)
              || Represents(o, MONTHLY, Month, b)
    ensures Keep(s) <= s && |Keep(s)| <= 21
    ensures s != {} ==> Newest(s) in Keep(s)
  {
    var o := Ordered(s);
    forall b ensures b in Keep(s) <==> Represents(o, DAILY, Day, b) || Represents(o, WEEKLY, Week, b) || Represents(o, MONTHLY, Month, b) {
      KeepOrderedMeaning(o, b);
    }
    KeepOrderedBounded(o);
    if s != {} { NewestIsFirst(s); }
  }

  lemma {:induction false} NewestIsFirst(s: set<Backup>)
    requires DistinctIds(s) && s != {}
    ensures Ordered(s) != [] && Ordered(s)[0] == Newest(s)
  {
    var o := Ordered(s);
    NoElements(o);
    assert o[0] in Elements(o) && Newest(s) in Elements(o);
  }

  lemma {:induction false} OrderedPart(whole: set<Backup>, part: set<Backup>)
    requires DistinctIds(whole) && part <= whole
    ensures Ordered(part) == Restrict(Ordered(whole), part)
  {
    RestrictOrdered(Ordered(whole), part);
    DescendingUnique(Restrict(Ordered(whole), part), Ordered(part));
  }

  lemma {:induction false} KeepOrderedStable(o: seq<Backup>, part: set<Backup>)
    requires KeepOrdered(o) <= part
    ensures KeepOrdered(Restrict(o, part)) == KeepOrdered(o)
  {
    SelectIgnoresUnselected(o, part, DAILY, Day, {});
    SelectIgnoresUnselected(o, part, WEEKLY, Week, {});
    SelectIgnoresUnselected(o, part, MONTHLY, Month, {});
    if o != [] { assert o[0] in KeepOrdered(o); }
  }

  /** Keeping is stable under dropping, or having dropped, backups it does not keep. */
  lemma {:induction false} KeepStable(whole: set<Backup>, part: set<Backup>)
    requires DistinctIds(whole) && part <= whole && Keep(whole) <= part
    ensures Keep(part) == Keep(whole)
  {
    OrderedPart(whole, part);
    KeepOrderedStable(Ordered(whole), part);
  }

  lemma {:induction false} KeepOrderedFromPart(o: seq<Backup>, part: set<Backup>)
    ensures KeepOrdered(o) * part <= KeepOrdered(Restrict(o, part))
  {
    SelectFromPart(o, part, DAILY, Day, {}, {});
    SelectFromPart(o, part, WEEKLY, Week, {}, {});
    SelectFromPart(o, part, MONTHLY, Month, {}, {});
    if o != [] { NewestSelected(o, DAILY, Day); }
  }

  /** A backup of some part that the whole keeps, the part alone keeps too. */
  lemma {:induction false} KeepFromPart(whole: set<Backup>, part: set<Backup>)
    requires DistinctIds(whole) && part <= whole
    ensures Keep(whole) * part <= Keep(part)
  {
    OrderedPart(whole, part);
    KeepOrderedFromPart(Ordered(whole), part);
  }

  /**
    Path independence: pruning first and adding later keeps what one pass over
    the whole history keeps.
  */
  lemma {:induction false} PathIndependence(m: set<Backup>, n: set<Backup>)
    requires DistinctIds(m + n)
    ensures Keep(m) <= m
    ensures Keep(Keep(m) + n) == Keep(m + n)
  {
    RetentionGuarantees(m);
    RetentionGuarantees(m + n);
    KeepFromPart(m + n, m);
    KeepStable(m + n, Keep(m) + n);
  }

  function Ids(s: set<Backup>): set<nat> {
    set b | b in s :: b.id
  }

  lemma {:induction false} IdsUnion(s: set<Backup>, t: set<Backup>)
    ensures Ids(s + t) == Ids(s) + Ids(t)
  {
  }

  /** `keepBuckets`: the loop over `ordered` that grows `observed` and `kept`. */
  method KeepBuckets(ordered: seq<Backup>, limit: nat, bucket: Backup -> int, before: set<nat>) returns (kept: set<nat>)
    ensures kept == before + Ids(Select(ordered, limit, bucket, {}))
  {
    kept := before;
    var observed := {};
    var i := 0;
    ghost var chosen: set<Backup> := {};
    while i < |ordered|
      invariant 0 <= i <= |ordered|
      invariant kept == before + Ids(chosen)
      invariant chosen + Select(ordered[i..], limit, bucket, observed) == Select(ordered, limit, bucket, {})
    {
      var key := bucket(ordered[i]);
      assert ordered[i..][1..] == ordered[i + 1..];
      if key in observed {
        i := i + 1;
        continue;
      }
      if |observed| >= limit { break; }
      observed := observed + {key};
      kept := kept + {ordered[i].id};
      IdsUnion(chosen, {ordered[i]});
      chosen := chosen + {ordered[i]};
      i := i + 1;
    }
  }

  /** `chooseRetentionIds` returns the ids of exactly the backups the policy keeps. */
  method ChooseRetentionIds(manifests: seq<Backup>) returns (kept: set<nat>)
    requires DistinctIdsIn(manifests)
    ensures DistinctIds(Elements(manifests))
    ensures kept == Ids(Keep(Elements(manifests)))
  {
    var ordered := NewestFirst(manifests);
    OrderedManifests(manifests);
    kept := KeepBuckets(ordered, DAILY, Day, {});
    kept := KeepBuckets(ordered, WEEKLY, Week, kept);
    kept := KeepBuckets(ordered, MONTHLY, Month, kept);
    if ordered != [] {
      kept := kept + {ordered[0].id};
    }
    KeepOrderedIds(ordered);
  }

  lemma {:induction false} KeepOrderedIds(o: seq<Backup>)
    ensures Ids(KeepOrdered(o)) ==
              Ids(Select(o, DAILY, Day, {})) + Ids(Select(o, WEEKLY, Week, {})) + Ids(Select(o, MONTHLY, Month, {}))
              + (if o == [] then {} else {o[0].id})
  {
    var d, w, m := Select(o, DAILY, Day, {}), Select(o, WEEKLY, Week, {}), Select(o, MONTHLY, Month, {});
    var newest := if o == [] then {} else {o[0]};
    IdsUnion(d, w);
    IdsUnion(d + w, m);
    IdsUnion(d + w + m, newest);
    assert Ids(newest) == if o == [] then {} else {o[0].id};
  }

  lemma {:induction false} OrderedManifests(manifests: seq<Backup>)
    requires DistinctIdsIn(manifests)
    ensures DistinctIds(Elements(manifests))
    ensures NewestFirst(manifests) == Ordered(Elements(manifests))
  {
    var ordered := NewestFirst(manifests);
    NewestFirstDescending(manifests);
    forall b ensures b in ordered <==> b in manifests {
      assert b in multiset(ordered) <==> b in multiset(manifests);
    }
    DescendingUnique(ordered, Ordered(Elements(manifests)));
  }
}
