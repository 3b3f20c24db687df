/** What every operation of the image store keeps: the byte budget and the eviction order. */
module GraphicsBudget {
  import opened Basics
  import opened GraphicsStore

  // ---------------------------------------------------------------- who is evicted

  lemma {:induction false} BytesCons(c: Candidate, cs: seq<Candidate>)
    ensures Bytes([c] + cs) == c.bytes + Bytes(cs)
    decreases |cs|
  {
    var all := [c] + cs;
    if cs == [] {
      assert all[..|all| - 1] == [];
    } else {
      BytesCons(c, cs[..|cs| - 1]);
      assert all[..|all| - 1] == [c] + cs[..|cs| - 1];
    }
  }

  /** What is taken is a prefix, its last member was needed, and it ends only at enough bytes or
      at the end of the queue. */
  lemma {:induction false} TakenIsPrefix(queue: seq<Candidate>, toFree: nat)
    ensures var taken := TakeEnough(queue, toFree);
            && |taken| <= |queue| && taken == queue[..|taken|]
            && (taken != [] ==> Bytes(taken[..|taken| - 1]) < toFree)
            && (Bytes(taken) >= toFree || taken == queue)
  {
    if queue == [] || toFree == 0 {
    } else {
      hide Bytes;
      var rest := TakeEnough(queue[1..], SatSub(toFree, queue[0].bytes));
      TakenIsPrefix(queue[1..], SatSub(toFree, queue[0].bytes));
      BytesCons(queue[0], rest);
      assert queue == [queue[0]] + queue[1..];
      if rest == [] {
        NoBytes(([queue[0]] + rest)[..0]);
      } else {
        BytesCons(queue[0], rest[..|rest| - 1]);
        assert ([queue[0]] + rest)[..|rest|] == [queue[0]] + rest[..|rest| - 1];
      }
    }
  }

  lemma NoBytes(cs: seq<Candidate>)
    requires cs == []
    ensures Bytes(cs) == 0
  {
  }

  /** The victims: candidates, none twice, none after one that was not taken. */
  lemma VictimFacts(s: Store, used: set<nat>, toFree: nat, victims: seq<Candidate>)
    requires Chosen(s, used, toFree, victims)
    ensures NoDup(victims) && forall v :: v in victims ==> IsCandidate(s, used, v)
    ensures forall v, c :: v in victims && IsCandidate(s, used, c) && c !in victims ==> !Before(c, v)
    ensures victims != [] ==> Bytes(victims[..|victims| - 1]) < toFree
    ensures Bytes(victims) >= toFree || forall c :: IsCandidate(s, used, c) ==> c in victims
  {
    hide IsCandidate, TakeEnough, Bytes, Before;
    var queue :| IsQueue(s, used, queue) && victims == TakeEnough(queue, toFree);
    TakenIsPrefix(queue, toFree);
    var n := |victims|;
    forall v, c | v in victims && IsCandidate(s, used, c) && c !in victims ensures !Before(c, v) {
      var i :| 0 <= i < n && queue[..n][i] == v;
      var j :| 0 <= j < |queue| && queue[j] == c;
      TakenIn(queue, n, j);
      assert queue[i] == v;
    }
  }

  lemma TakenIn(queue: seq<Candidate>, n: nat, j: nat)
    requires n <= |queue|
    ensures j < n ==> queue[j] in queue[..n]
  {
    if j < n { assert queue[..n][j] == queue[j]; }
  }

  lemma {:induction false} SortedOnce(a: seq<Candidate>, b: seq<Candidate>)
    requires NoDup(a) && NoDup(b) && InOrder(a) && InOrder(b)
    requires forall c :: c in a <==> c in b
    requires forall x, y :: x in a && y in a && x != y ==> Before(x, y) || Before(y, x)
    ensures a == b
    decreases |a|
  {
    hide Before;
    if a == [] {
      assert forall c :: c in b ==> c in a;
      NothingIn(b);
    } else {
      SameFirst(a, b);
      SameRest(a, b);
      SortedOnce(a[1..], b[1..]);
      assert a == [a[0]] + a[1..] && b == [b[0]] + b[1..];
    }
  }

  lemma NothingIn(b: seq<Candidate>)
    ensures b == [] || b[0] in b
  {
  }

  lemma SameFirst(a: seq<Candidate>, b: seq<Candidate>)
    requires a != [] && InOrder(a) && InOrder(b)
    requires forall c :: c in a <==> c in b
    requires forall x, y :: x in a && y in a && x != y ==> Before(x, y) || Before(y, x)
    ensures b != [] && a[0] == b[0]
  {
    hide Before;
    assert a[0] in b;
    var j :| 0 <= j < |b| && b[j] == a[0];
    assert b[0] in a;
    var i :| 0 <= i < |a| && a[i] == b[0];
    assert i > 0 ==> !Before(a[i], a[0]);
    assert j > 0 ==> !Before(b[j], b[0]);
  }

  lemma SameRest(a: seq<Candidate>, b: seq<Candidate>)
    requires a != [] && b != [] && a[0] == b[0] && NoDup(a) && NoDup(b)
    requires forall c :: c in a <==> c in b
    ensures forall c :: c in a[1..] <==> c in b[1..]
  {
    assert a == [a[0]] + a[1..] && b == [b[0]] + b[1..];
    forall c ensures c in a[1..] <==> c in a && c != a[0] {
      if c in a[1..] { var i :| 0 <= i < |a[1..]| && a[1..][i] == c; assert a[i + 1] == c; }
    }
    forall c ensures c in b[1..] <==> c in b && c != b[0] {
      if c in b[1..] { var i :| 0 <= i < |b[1..]| && b[1..][i] == c; assert b[i + 1] == c; }
    }
  }

  // ---------------------------------------------------------------- eviction and bytes

  ghost function BytesOf(cs: seq<Candidate>, source: Source): nat {
    if cs == [] then 0
    else BytesOf(cs[..|cs| - 1], source) + (if cs[|cs| - 1].source == source then cs[|cs| - 1].bytes else 0)
  }

  lemma {:induction false} BytesBySource(cs: seq<Candidate>)
    ensures Bytes(cs) == BytesOf(cs, Pending) + BytesOf(cs, ActiveKitty) + BytesOf(cs, InactiveKitty)
  {
    if cs == [] {
    } else {
      BytesBySource(cs[..|cs| - 1]);
    }
  }

  /** The victims of one source name distinct entries of `m` at their own size. */
  ghost predicate Names(cs: seq<Candidate>, source: Source, m: map<nat, nat>) {
    && (forall c :: c in cs && c.source == source ==> c.id in m && m[c.id] == c.bytes)
    && (forall i, j :: 0 <= i < j < |cs| && cs[i].source == source && cs[j].source == source ==> cs[i].id != cs[j].id)
  }

  lemma {:induction false} DropNamed(cs: seq<Candidate>, source: Source, m: map<nat, nat>)
    requires Names(cs, source, m)
    ensures Sum(m) == Sum(m - Ids(cs, source)) + BytesOf(cs, source)
  {
    if cs == [] {
      assert m - Ids(cs, source) == m;
    } else {
      var front, c := cs[..|cs| - 1], cs[|cs| - 1];
      assert cs == front + [c];
      NamesFront(front, c, source, m);
      hide Names, Sum;
      DropNamed(front, source, m);
      IdsSnoc(front, c, source);
      hide Ids;
      if c.source == source {
        assert m - Ids(cs, source) == (m - Ids(front, source)) - {c.id};
        SumRemove(m - Ids(front, source), c.id);
      }
    }
  }

  lemma NamesFront(front: seq<Candidate>, c: Candidate, source: Source, m: map<nat, nat>)
    requires Names(front + [c], source, m)
    ensures Names(front, source, m)
    ensures c.source == source ==> c.id in m && m[c.id] == c.bytes && c.id !in Ids(front, source)
  {
    var cs := front + [c];
    assert cs[|front|] == c;
    forall x | x in front ensures x in cs {}
    forall i | 0 <= i < |front| ensures cs[i] == front[i] {}
    if c.source == source {
      forall x | x in front && x.source == source ensures x.id != c.id {
        var i :| 0 <= i < |front| && front[i] == x;
        assert cs[i].id != cs[|front|].id;
      }
    }
  }

  /** A candidate is determined by where it lives and its id. */
  lemma CandidateUnique(s: Store, used: set<nat>, a: Candidate, b: Candidate)
    requires PendingNoDup(s.pending)
    requires IsCandidate(s, used, a) && IsCandidate(s, used, b) && a.source == b.source && a.id == b.id
    ensures a == b
  {}

  lemma VictimsNamed(s: Store, used: set<nat>, victims: seq<Candidate>)
    requires Consistent(s) && NoDup(victims)
    requires forall v :: v in victims ==> IsCandidate(s, used, v)
    ensures Names(victims, Pending, s.sizes)
    ensures Names(victims, ActiveKitty, Lengths(s.active.images))
    ensures Names(victims, InactiveKitty, Lengths(s.inactive.images))
  {
    hide IsCandidate;
    forall i, j | 0 <= i < j < |victims| && victims[i].source == victims[j].source
      ensures victims[i].id != victims[j].id
    {
      if victims[i].id == victims[j].id { CandidateUnique(s, used, victims[i], victims[j]); }
    }
    forall v | v in victims
      ensures v.source == Pending ==> v.id in s.sizes && s.sizes[v.id] == v.bytes
      ensures v.source == ActiveKitty ==> v.id in s.active.images && |s.active.images[v.id].data.pixels| == v.bytes
      ensures v.source == InactiveKitty ==> v.id in s.inactive.images && |s.inactive.images[v.id].data.pixels| == v.bytes
    {
      CandidateSize(s, used, v);
    }
  }

  lemma CandidateSize(s: Store, used: set<nat>, v: Candidate)
    requires Consistent(s) && IsCandidate(s, used, v)
    ensures v.source == Pending ==> v.id in s.sizes && s.sizes[v.id] == v.bytes
    ensures v.source == ActiveKitty ==> v.id in s.active.images && |s.active.images[v.id].data.pixels| == v.bytes
    ensures v.source == InactiveKitty ==> v.id in s.inactive.images && |s.inactive.images[v.id].data.pixels| == v.bytes
  {}

  lemma {:induction false} KeepPendingFacts(pending: seq<GraphicData>, gone: set<nat>)
    ensures forall g :: g in KeepPending(pending, gone) <==> g in pending && g.id !in gone
    ensures PendingNoDup(pending) ==> PendingNoDup(KeepPending(pending, gone))
  {
    if pending == [] {
    } else {
      var front, g := pending[..|pending| - 1], pending[|pending| - 1];
      assert pending == front + [g];
      KeepPendingFacts(front, gone);
    }
  }

  /** Eviction releases exactly the bytes it counts: none twice, none missed. */
  lemma EvictedBytes(s: Store, used: set<nat>, victims: seq<Candidate>)
    requires Consistent(s) && NoDup(victims)
    requires forall v :: v in victims ==> IsCandidate(s, used, v)
    ensures HeldBytes(Evicted(s, victims)) + Bytes(victims) == HeldBytes(s)
    ensures Consistent(Evicted(s, victims))
  {
    hide IsCandidate, NoDup, Names;
    VictimsNamed(s, used, victims);
    DropNamed(victims, Pending, s.sizes);
    DropNamed(victims, ActiveKitty, Lengths(s.active.images));
    DropNamed(victims, InactiveKitty, Lengths(s.inactive.images));
    BytesBySource(victims);
    hide Bytes, Sum;
    LengthsWithout(s.active.images, Ids(victims, ActiveKitty));
    LengthsWithout(s.inactive.images, Ids(victims, InactiveKitty));
    EvictedConsistent(s, victims);
    hide Ids, Lengths, Consistent;
  }

  lemma LengthsWithout(images: map<nat, StoredImage>, gone: set<nat>)
    ensures Lengths(images - gone) == Lengths(images) - gone
  {
  }

  lemma EvictedConsistent(s: Store, victims: seq<Candidate>)
    requires Consistent(s)
    ensures Consistent(Evicted(s, victims))
  {
    hide Bytes;
    KeepPendingFacts(s.pending, Ids(victims, Pending));
    forall id | id in s.timestamps - AllIds(victims) ensures id in s.sizes - Ids(victims, Pending) {}
  }

  /** The bytes an eviction subtracts are there, so the saturating subtraction is exact;
      coverage and exactness survive; and the result says whether the request now fits. */
  lemma EvictKeepsBudget(s: Store, required: nat, used: set<nat>, victims: seq<Candidate>, ok: bool, s': Store)
    requires Consistent(s) && Covered(s)
    requires Evict(s, required, used, victims, ok, s')
    ensures Consistent(s') && Covered(s') && Surplus(s') == Surplus(s)
    ensures s'.totalBytes == s.totalBytes - Bytes(victims)
    ensures ok <==> s'.totalBytes + required <= s'.totalLimit
    ensures s'.lastId == s.lastId
  {
    if Scans(s, required, used) {
      hide HeldBytes, Consistent, NoDup, IsCandidate, Chosen;
      VictimFacts(s, used, s.totalBytes + required - s.totalLimit, victims);
      EvictedBytes(s, used, victims);
    }
  }

  ghost predicate NoDangling(s: Store) {
    && (forall k :: k in s.active.placements ==> s.active.placements[k].imageId in s.active.images)
    && (forall k :: k in s.inactive.placements ==> s.inactive.placements[k].imageId in s.inactive.images)
  }

  /** After an eviction no placement is left without its image on its own screen, exactly when
      the scan ran (it ends in a sweep) or nothing dangled before: the early returns sweep
      nothing. */
  lemma EvictSweeps(s: Store, required: nat, used: set<nat>, victims: seq<Candidate>, ok: bool, s': Store)
    requires Evict(s, required, used, victims, ok, s')
    ensures NoDangling(s') <==> Scans(s, required, used) || NoDangling(s)
  {}

  /** A graphic the grid still shows is never dropped before its pixels reach the renderer. */
  lemma EvictKeepsUsedPending(s: Store, required: nat, used: set<nat>, victims: seq<Candidate>, ok: bool, s': Store, g: GraphicData)
    requires Evict(s, required, used, victims, ok, s')
    requires g in s.pending && g.id in used
    ensures g in s'.pending && (g.id in s.sizes ==> g.id in s'.sizes)
  {
    if Scans(s, required, used) {
      hide Chosen;
      VictimFacts(s, used, s.totalBytes + required - s.totalLimit, victims);
      KeepPendingFacts(s.pending, Ids(victims, Pending));
    }
  }

  /** A candidate survives an eviction of something else only if it was not due before it. A
      shown image goes only when nothing but newer shown images is left; an unused one goes
      only when the other screen is empty and nothing unused and older stays; and the other
      screen's images go oldest first. */
  lemma EvictInOrder(s: Store, required: nat, used: set<nat>, victims: seq<Candidate>, ok: bool, s': Store,
                     victim: Candidate, survivor: Candidate)
    requires Evict(s, required, used, victims, ok, s')
    requires victim in victims && IsCandidate(s, used, survivor) && survivor !in victims
    ensures Tier(victim) <= Tier(survivor)
    ensures Tier(victim) == Tier(survivor) ==> victim.time <= survivor.time
    ensures victim.source.ActiveKitty? && victim.id in used ==>
              survivor.source.ActiveKitty? && survivor.id in used && victim.time <= survivor.time
    ensures victim.source.Pending? || (victim.source.ActiveKitty? && victim.id !in used) ==>
              && !survivor.source.InactiveKitty?
              && (victim.time <= survivor.time || (survivor.source.ActiveKitty? && survivor.id in used))
    ensures victim.source.InactiveKitty? && survivor.source.InactiveKitty? ==> victim.time <= survivor.time
  {
    hide Chosen, Evicted, PendingCandidate, ImageCandidate;
    VictimFacts(s, used, s.totalBytes + required - s.totalLimit, victims);
    assert !Before(survivor, victim) && IsCandidate(s, used, victim);
    CandidateUse(s, used, victim);
    CandidateUse(s, used, survivor);
  }

  lemma CandidateUse(s: Store, used: set<nat>, c: Candidate)
    requires IsCandidate(s, used, c)
    ensures c.used <==> c.source.ActiveKitty? && c.id in used
  {
  }

  /** Unless two candidates tie, in tier and time, the store alone decides: whatever order the
      maps are walked in, the same victims go and the same store is left. */
  lemma EvictDeterministic(s: Store, required: nat, used: set<nat>,
                           victims: seq<Candidate>, ok: bool, s': Store,
                           victims2: seq<Candidate>, ok2: bool, s2: Store)
    requires Evict(s, required, used, victims, ok, s') && Evict(s, required, used, victims2, ok2, s2)
    requires forall x, y :: IsCandidate(s, used, x) && IsCandidate(s, used, y) && x != y ==> Before(x, y) || Before(y, x)
    ensures victims == victims2 && ok == ok2 && s' == s2
  {
    hide IsCandidate, TakeEnough, Evicted, Before;
    if Scans(s, required, used) {
      var toFree := s.totalBytes + required - s.totalLimit;
      var queue :| IsQueue(s, used, queue) && victims == TakeEnough(queue, toFree);
      var queue2 :| IsQueue(s, used, queue2) && victims2 == TakeEnough(queue2, toFree);
      SortedOnce(queue, queue2);
    }
  }

  /** Nothing is evicted needlessly: without its last victim the request would not fit. */
  lemma EvictMinimal(s: Store, required: nat, used: set<nat>, victims: seq<Candidate>, ok: bool, s': Store)
    requires Consistent(s) && Covered(s)
    requires Evict(s, required, used, victims, ok, s') && victims != []
    ensures s'.totalBytes + victims[|victims| - 1].bytes + required > s.totalLimit
  {
    hide Consistent, Covered, IsCandidate, Chosen, Evicted;
    EvictKeepsBudget(s, required, used, victims, ok, s');
    VictimFacts(s, used, s.totalBytes + required - s.totalLimit, victims);
  }

  /** Evicting a kitty image strips the timestamp of an atlas graphic that happens to have the
      same number and still waits for upload: the graphic keeps its bytes. */
  lemma EvictStripsNamesake(s: Store, required: nat, used: set<nat>, victims: seq<Candidate>, ok: bool, s': Store,
                            victim: Candidate, g: GraphicData)
    requires Consistent(s) && Evict(s, required, used, victims, ok, s') && Scans(s, required, used)
    requires victim in victims && !victim.source.Pending? && g in s.pending && g.id == victim.id
    requires g.id in s.sizes && g in s'.pending
    ensures g.id in s'.sizes && g.id !in s'.timestamps && g.id <= s'.lastId
  {
    hide Chosen, IsCandidate;
    KeepPendingFacts(s.pending, Ids(victims, Pending));
  }

  // ---------------------------------------------------------------- the other operations

  /** Good states: consistent, and the budget covers what is held. */
  ghost predicate Good(s: Store) { Consistent(s) && Covered(s) }

  lemma ReplaceKeepsBudget(s: Store, id: nat, number: Option<nat>, data: GraphicData, now: nat)
    requires Good(s)
    ensures var s' := Replaced(s, id, number, data, now);
            && Good(s') && Surplus(s') == Surplus(s)
            && s'.totalBytes == s.totalBytes + |data.pixels| - (if id in s.active.images then |s.active.images[id].data.pixels| else 0)
  {
    hide Sum, Lengths;
    var sizes := Lengths(s.active.images);
    LengthsWith(s.active.images, id, data, now);
    SumInsert(sizes, id, |data.pixels|);
    SumRemove(sizes, id);
  }

  lemma LengthsWith(images: map<nat, StoredImage>, id: nat, data: GraphicData, now: nat)
    ensures Lengths(images[id := StoredImage(data, now)]) == Lengths(images)[id := |data.pixels|]
    ensures id in Lengths(images) <==> id in images
    ensures id in images ==> Lengths(images)[id] == |images[id].data.pixels|
  {
  }

  lemma MakeRoomKeepsBudget(s: Store, required: nat, used: set<nat>, victims: seq<Candidate>, ok: bool, s': Store)
    requires Good(s) && MakeRoom(s, required, used, victims, ok, s')
    ensures Good(s') && Surplus(s') == Surplus(s) && s'.lastId == s.lastId
  {
    hide Evict;
    if s.totalBytes + required > s.totalLimit {
      EvictKeepsBudget(s, required, used, victims, ok, s');
    }
  }

  lemma StoreKeepsBudget(s: Store, id: nat, number: Option<nat>, data: GraphicData, now: nat, victims: seq<Candidate>, s': Store)
    requires Good(s) && StoreImage(s, id, number, data, now, victims, s')
    ensures Good(s') && Surplus(s') == Surplus(s)
  {
    hide MakeRoom, Good, Surplus;
    var used := Overlaid(s.active.placements) + {id};
    var mid, ok :| MakeRoom(s, |data.pixels|, used, victims, ok, mid) && s' == Replaced(mid, id, number, data, now);
    MakeRoomKeepsBudget(s, |data.pixels|, used, victims, ok, mid);
    ReplaceKeepsBudget(mid, id, number, data, now);
  }

  lemma TrackKeepsBudget(s: Store, bytes: nat, now: nat)
    requires Good(s)
    ensures var s' := Tracked(s.(lastId := s.lastId + 1), s.lastId + 1, bytes, now);
            Good(s') && Surplus(s') == Surplus(s)
  {
    SumInsert(s.sizes, s.lastId + 1, bytes);
    assert s.sizes - {s.lastId + 1} == s.sizes;
  }

  lemma UntrackKeepsBudget(s: Store, id: nat)
    requires Good(s) && id in s.sizes
    ensures var s' := Untracked(s, id, s.sizes[id]);
            Good(s') && Surplus(s') == Surplus(s) && s'.totalBytes == s.totalBytes - s.sizes[id]
  {
    SumRemove(s.sizes, id);
  }

  lemma {:induction false} ReleaseKeepsBudget(s: Store, keys: seq<nat>)
    requires Good(s)
    ensures Good(ReleaseKeys(s, keys)) && Surplus(ReleaseKeys(s, keys)) == Surplus(s)
    ensures var s' := ReleaseKeys(s, keys); s' == s.(timestamps := s'.timestamps, sizes := s'.sizes, totalBytes := s'.totalBytes)
    ensures var s' := ReleaseKeys(s, keys);
            forall id :: id in s.sizes && (id + ATLAS_BASE in s.active.atlasKeyRefs || id + ATLAS_BASE in s.inactive.atlasKeyRefs) && id > 0
                         ==> id in s'.sizes && s'.sizes[id] == s.sizes[id]
  {
    if keys == [] {
    } else {
      var front, key := keys[..|keys| - 1], keys[|keys| - 1];
      ReleaseKeepsBudget(s, front);
      var mid := ReleaseKeys(s, front);
      var id := SatSub(key, ATLAS_BASE);
      hide Good, Surplus;
      if id in mid.sizes { UntrackKeepsBudget(mid, id); }
    }
  }

  lemma RecountKeepsBudget(s: Store, lost: seq<nat>, s': Store)
    requires Good(s) && (RecountActive(s, lost, s') || RecountInactive(s, lost, s'))
    ensures Good(s') && Surplus(s') == Surplus(s) && s'.lastId == s.lastId && s'.pending == s.pending
  {
    if RecountActive(s, lost, s') {
      ReleaseKeepsBudget(s.(active := Recounted(s.active), removals := s.removals + lost), lost);
    } else {
      ReleaseKeepsBudget(s.(inactive := Recounted(s.inactive), removals := s.removals + lost), lost);
    }
  }

  lemma {:induction false} CountKeysKeys(placements: seq<nat>)
    ensures forall k :: k in CountKeys(placements) <==> k in placements
  {
    if placements == [] {
    } else {
      var front, key := placements[..|placements| - 1], placements[|placements| - 1];
      assert placements == front + [key];
      CountKeysKeys(front);
    }
  }

  lemma PlacedKeepsBudget(s: Store, bytes: nat, now: nat, kept: seq<nat>)
    requires Good(s)
    ensures var p := Placed(s, bytes, now, kept);
            && Good(p) && Surplus(p) == Surplus(s)
            && p.lastId == s.lastId + 1 && p.lastId in p.sizes && p.sizes[p.lastId] == bytes
            && p.pending == s.pending && (forall g :: g in p.pending ==> g.id < p.lastId)
            && p.lastId + ATLAS_BASE in p.active.atlasPlacements
  {
    TrackKeepsBudget(s, bytes, now);
    var keys := kept + [s.lastId + 1 + ATLAS_BASE];
    assert keys[|keys| - 1] == s.lastId + 1 + ATLAS_BASE;
  }

  /** A graphic that is on the active screen survives a recount with its bytes. */
  lemma RecountKeepsPlaced(s: Store, lost: seq<nat>, s': Store, id: nat)
    requires Good(s) && RecountActive(s, lost, s')
    requires id > 0 && id in s.sizes && id + ATLAS_BASE in s.active.atlasPlacements
    ensures id in s'.sizes && s'.sizes[id] == s.sizes[id]
  {
    var before := s.(active := Recounted(s.active), removals := s.removals + lost);
    CountKeysKeys(s.active.atlasPlacements);
    ReleaseKeepsBudget(before, lost);
  }

  lemma QueueKeepsBudget(s: Store, pixels: seq<Byte>)
    requires Good(s) && s.lastId in s.sizes && s.sizes[s.lastId] == |pixels|
    requires forall g :: g in s.pending ==> g.id < s.lastId
    ensures var s' := s.(pending := s.pending + [GraphicData(s.lastId, pixels)]);
            Good(s') && Surplus(s') == Surplus(s)
  {}

  /** The new image is placed before the recount, so the recount cannot release it: it is
      queued for upload while still tracked at its own size. */
  lemma InsertKeepsBudget(s: Store, pixels: seq<Byte>, now: nat, used: set<nat>, kept: seq<nat>,
                          victims: seq<Candidate>, lost: seq<nat>, s': Store)
    requires Good(s) && InsertGraphic(s, pixels, now, used, kept, victims, lost, s')
    ensures Good(s') && Surplus(s') == Surplus(s)
    ensures s'.lastId == s.lastId + 1 && s'.lastId in s'.sizes && s'.sizes[s'.lastId] == |pixels|
  {
    hide MakeRoom, RecountActive, Placed, Good, Surplus;
    var mid, ok, counted :| && MakeRoom(s, |pixels|, used, victims, ok, mid)
                            && RecountActive(Placed(mid, |pixels|, now, kept), lost, counted)
                            && s' == counted.(pending := counted.pending + [GraphicData(counted.lastId, pixels)]);
    MakeRoomKeepsBudget(s, |pixels|, used, victims, ok, mid);
    PlacedKeepsBudget(mid, |pixels|, now, kept);
    var placed := Placed(mid, |pixels|, now, kept);
    RecountKeepsBudget(placed, lost, counted);
    RecountKeepsPlaced(placed, lost, counted, placed.lastId);
    QueueKeepsBudget(counted, pixels);
  }

  lemma {:induction false} SumParts(m: map<nat, nat>, ks: set<nat>)
    requires ks <= m.Keys
    ensures Sum(m) == Sum(m - ks) + Sum(m - (m.Keys - ks))
    decreases |ks|
  {
    if ks == {} {
      assert m - ks == m && m - (m.Keys - ks) == map[];
    } else {
      var k :| k in ks;
      SumParts(m, ks - {k});
      assert m - (ks - {k}) - {k} == m - ks;
      SumRemove(m - (ks - {k}), k);
      var inside := m - (m.Keys - ks);
      assert inside - {k} == m - (m.Keys - (ks - {k}));
      SumRemove(inside, k);
    }
  }

  /** A full reset gives back the inactive screen and the uploaded atlas graphics, and nothing
      else: what it fails to give back is exactly the active screen's image bytes. */
  lemma ClearKeepsCover(s: Store, activeKeys: seq<nat>, inactiveKeys: seq<nat>, s': Store)
    requires Good(s) && Clear(s, activeKeys, inactiveKeys, s')
    ensures Good(s')
    ensures s'.totalBytes == s.totalBytes - ImageBytes(s.inactive.images) - Sum(Released(s))
    ensures s'.totalBytes - HeldBytes(s') == s.totalBytes - HeldBytes(s) + ImageBytes(s.active.images)
  {
    var r := Released(s);
    SumParts(s.sizes, r.Keys);
    assert s.sizes - (s.sizes.Keys - r.Keys) == r;
    assert Lengths(EMPTY_SCREEN.images) == map[];
  }

  /** Deleting images keeps their bytes on the books. */
  lemma DeleteKeepsCover(s: Store, gone: set<nat>)
    requires Good(s)
    ensures Good(Deleted(s, gone))
    ensures HeldBytes(s) - HeldBytes(Deleted(s, gone))
            == ImageBytes(s.active.images) - ImageBytes(s.active.images - gone)
  {
    assert Lengths(s.active.images - gone) == Lengths(s.active.images) - gone;
    SumDrop(Lengths(s.active.images), gone);
  }

  // ---------------------------------------------------------------- every run

  /** Image bytes an operation drops without giving them back. */
  ghost function Leak(s: Store, op: Op): int {
    match op
    case OpDelete(gone) => ImageBytes(s.active.images) - ImageBytes(s.active.images - gone)
    case OpClear(_, _) => ImageBytes(s.active.images)
    case _ => 0
  }

  lemma LeakIsNat(s: Store, op: Op)
    ensures Leak(s, op) >= 0
  {
    if op.OpDelete? {
      assert Lengths(s.active.images - op.gone) == Lengths(s.active.images) - op.gone;
      SumDrop(Lengths(s.active.images), op.gone);
    }
  }

  lemma StepKeepsBudget(s: Store, op: Op, s': Store)
    requires Good(s) && Step(s, op, s')
    ensures Good(s') && Surplus(s') == Surplus(s) + Leak(s, op)
  {
    hide StoreImage, Evict, InsertGraphic, RecountActive, RecountInactive, ReleaseKeys, Clear, Good, HeldBytes;
    match op
    case OpStore(id, number, data, now, victims) => StoreKeepsBudget(s, id, number, data, now, victims, s');
    case OpEvict(required, used, victims, ok) => EvictGood(s, required, used, victims, ok, s');
    case OpInsert(pixels, now, used, kept, victims, lost) => InsertKeepsBudget(s, pixels, now, used, kept, victims, lost, s');
    case OpTrack(bytes, now) => TrackKeepsBudget(s, bytes, now);
    case OpUntrack(id) => UntrackKeepsBudget(s, id);
    case OpRecountActive(lost) => RecountKeepsBudget(s, lost, s');
    case OpRecountInactive(lost) => RecountKeepsBudget(s, lost, s');
    case OpReleaseKeys(keys) => ReleaseKeepsBudget(s, keys);
    case OpDelete(gone) => DeleteKeepsCover(s, gone);
    case OpClear(activeKeys, inactiveKeys) => ClearKeepsCover(s, activeKeys, inactiveKeys, s');
    case OpSwap => SwapKeepsBudget(s);
    case OpTakeQueues => QueuesKeepBudget(s);
    case OpRearrange(active, inactive) => RearrangeKeepsBudget(s, active, inactive);
  }

  lemma EvictGood(s: Store, required: nat, used: set<nat>, victims: seq<Candidate>, ok: bool, s': Store)
    requires Good(s) && Evict(s, required, used, victims, ok, s')
    ensures Good(s') && Surplus(s') == Surplus(s)
  {
    hide Evict;
    EvictKeepsBudget(s, required, used, victims, ok, s');
  }

  lemma SwapKeepsBudget(s: Store)
    requires Good(s)
    ensures Good(Swapped(s)) && Surplus(Swapped(s)) == Surplus(s)
  {
    hide ImageBytes, Sum;
  }

  lemma QueuesKeepBudget(s: Store)
    requires Good(s)
    ensures var s' := s.(pending := [], removals := []); Good(s') && Surplus(s') == Surplus(s)
  {
    hide ImageBytes, Sum;
  }

  lemma RearrangeKeepsBudget(s: Store, active: Screen, inactive: Screen)
    requires Good(s) && OnlyPlacementsDiffer(s.active, active) && OnlyPlacementsDiffer(s.inactive, inactive)
    ensures var s' := s.(active := active, inactive := inactive); Good(s') && Surplus(s') == Surplus(s)
  {
    hide ImageBytes, Sum;
  }

  /** Everything the first `n` operations of a run dropped without giving it back. */
  ghost function Leaked(states: seq<Store>, ops: seq<Op>, n: nat): int
    requires |states| == |ops| + 1 && n <= |ops|
  {
    if n == 0 then 0 else Leaked(states, ops, n - 1) + Leak(states[n - 1], ops[n - 1])
  }

  lemma NothingHeld(s: Store)
    requires Initial(s)
    ensures Good(s) && HeldBytes(s) == 0
  {
    assert Lengths(EMPTY_SCREEN.images) == map[];
  }

  /** In every reachable state the total is exactly what is held plus the image bytes that deletes
      and resets dropped so far, so no saturating subtraction ever clips. */
  lemma {:induction false} RunKeepsBudget(states: seq<Store>, ops: seq<Op>, n: nat)
    requires IsRun(states, ops) && n <= |ops|
    ensures Good(states[n])
    ensures states[n].totalBytes == HeldBytes(states[n]) + Leaked(states, ops, n)
  {
    hide Good, HeldBytes, Leak, Step;
    if n == 0 {
      NothingHeld(states[0]);
    } else {
      RunKeepsBudget(states, ops, n - 1);
      StepKeepsBudget(states[n - 1], ops[n - 1], states[n]);
    }
  }

  lemma {:induction false} LeakedNothingIff(states: seq<Store>, ops: seq<Op>, n: nat)
    requires |states| == |ops| + 1 && n <= |ops|
    ensures Leaked(states, ops, n) >= 0
    ensures Leaked(states, ops, n) == 0 <==> forall i :: 0 <= i < n ==> Leak(states[i], ops[i]) == 0
  {
    if n == 0 {
    } else {
      hide Leak;
      LeakedNothingIff(states, ops, n - 1);
      LeakIsNat(states[n - 1], ops[n - 1]);
    }
  }

  /** The total is exact if and only if every delete and every reset so far dropped no image
      bytes; runs without them are the plainest case. */
  lemma RunIsExactIff(states: seq<Store>, ops: seq<Op>, n: nat)
    requires IsRun(states, ops) && n <= |ops|
    ensures Exact(states[n]) <==> forall i :: 0 <= i < n ==> Leak(states[i], ops[i]) == 0
    ensures (forall i :: 0 <= i < n ==> !Leaks(ops[i])) ==> Exact(states[n])
  {
    hide HeldBytes, Step, Leaked;
    RunKeepsBudget(states, ops, n);
    LeakedNothingIff(states, ops, n);
    forall i | 0 <= i < n && !Leaks(ops[i]) ensures Leak(states[i], ops[i]) == 0 {}
  }

  // ---------------------------------------------------------------- a stripped graphic stays so

  lemma {:induction false} ReleaseForgets(s: Store, keys: seq<nat>)
    ensures ReleaseKeys(s, keys).timestamps.Keys <= s.timestamps.Keys && ReleaseKeys(s, keys).lastId == s.lastId
  {
    if keys == [] {
    } else {
      ReleaseForgets(s, keys[..|keys| - 1]);
    }
  }

  lemma MakeRoomForgets(s: Store, required: nat, used: set<nat>, victims: seq<Candidate>, ok: bool, s': Store)
    requires MakeRoom(s, required, used, victims, ok, s')
    ensures s'.timestamps.Keys <= s.timestamps.Keys && s'.lastId == s.lastId
  {
    hide Chosen, IsCandidate;
  }

  lemma StoreForgets(s: Store, id: nat, number: Option<nat>, data: GraphicData, now: nat, victims: seq<Candidate>, s': Store)
    requires StoreImage(s, id, number, data, now, victims, s')
    ensures s'.timestamps.Keys <= s.timestamps.Keys && s'.lastId == s.lastId
  {
    hide MakeRoom;
    var used := Overlaid(s.active.placements) + {id};
    var mid, ok :| MakeRoom(s, |data.pixels|, used, victims, ok, mid) && s' == Replaced(mid, id, number, data, now);
    MakeRoomForgets(s, |data.pixels|, used, victims, ok, mid);
  }

  lemma EvictForgets(s: Store, required: nat, used: set<nat>, victims: seq<Candidate>, ok: bool, s': Store)
    requires Evict(s, required, used, victims, ok, s')
    ensures s'.timestamps.Keys <= s.timestamps.Keys && s'.lastId == s.lastId
  {
    hide Chosen, IsCandidate;
  }

  lemma RecountForgets(s: Store, lost: seq<nat>, s': Store)
    requires RecountActive(s, lost, s') || RecountInactive(s, lost, s')
    ensures s'.timestamps.Keys <= s.timestamps.Keys && s'.lastId == s.lastId
  {
    hide ReleaseKeys, Enumerates;
    ReleaseForgets(s.(active := Recounted(s.active), removals := s.removals + lost), lost);
    ReleaseForgets(s.(inactive := Recounted(s.inactive), removals := s.removals + lost), lost);
  }

  lemma InsertTimesFresh(s: Store, pixels: seq<Byte>, now: nat, used: set<nat>, kept: seq<nat>,
                         victims: seq<Candidate>, lost: seq<nat>, s': Store)
    requires InsertGraphic(s, pixels, now, used, kept, victims, lost, s')
    ensures s'.timestamps.Keys <= s.timestamps.Keys + {s.lastId + 1} && s'.lastId == s.lastId + 1
  {
    hide MakeRoom, RecountActive;
    var mid, ok, counted :| && MakeRoom(s, |pixels|, used, victims, ok, mid)
                            && RecountActive(Placed(mid, |pixels|, now, kept), lost, counted)
                            && s' == counted.(pending := counted.pending + [GraphicData(counted.lastId, pixels)]);
    MakeRoomForgets(s, |pixels|, used, victims, ok, mid);
    RecountForgets(Placed(mid, |pixels|, now, kept), lost, counted);
  }

  /** Only an id that was never given out before can get a timestamp. */
  lemma StepTimesFresh(s: Store, op: Op, s': Store, id: nat)
    requires Step(s, op, s') && id <= s.lastId && id !in s.timestamps
    ensures id <= s'.lastId && id !in s'.timestamps
  {
    hide StoreImage, Evict, InsertGraphic, RecountActive, RecountInactive, ReleaseKeys, Enumerates;
    match op
    case OpStore(i, number, data, now, victims) => StoreForgets(s, i, number, data, now, victims, s');
    case OpEvict(required, used, victims, ok) => EvictForgets(s, required, used, victims, ok, s');
    case OpInsert(pixels, now, used, kept, victims, lost) => InsertTimesFresh(s, pixels, now, used, kept, victims, lost, s');
    case OpRecountActive(lost) => RecountForgets(s, lost, s');
    case OpRecountInactive(lost) => RecountForgets(s, lost, s');
    case OpReleaseKeys(keys) => ReleaseForgets(s, keys);
    case _ =>
  }

  /** From then on, in every run, the graphic is never an eviction candidate again. */
  lemma {:induction false} StrippedNeverCandidate(states: seq<Store>, ops: seq<Op>, i: nat, n: nat, id: nat)
    requires IsRun(states, ops) && i <= n <= |ops|
    requires id <= states[i].lastId && id !in states[i].timestamps
    ensures id <= states[n].lastId && id !in states[n].timestamps
    ensures forall used, c :: IsCandidate(states[n], used, c) && c.source == Pending ==> c.id != id
    decreases n
  {
    if i == n {
    } else {
      StrippedNeverCandidate(states, ops, i, n - 1, id);
      hide Step;
      StepTimesFresh(states[n - 1], ops[n - 1], states[n], id);
    }
  }

  // ---------------------------------------------------------------- runs that fail

  /** Exactness really fails across a delete: a run of two operations that leaves bytes on the
      books of an empty store. */
  lemma DeleteLeaks(s: Store, data: GraphicData)
    requires Initial(s) && |data.pixels| > 0 && |data.pixels| <= s.totalLimit
    ensures var s1 := Replaced(s, 1, None, data, 0);
            var s2 := Deleted(s1, {1});
            && IsRun([s, s1, s2], [OpStore(1, None, data, 0, []), OpDelete({1})])
            && HeldBytes(s2) == 0 && s2.totalBytes == |data.pixels|
  {
    var s1 := Replaced(s, 1, None, data, 0);
    var s2 := Deleted(s1, {1});
    StoredFirst(s, data);
    assert Lengths(s2.active.images) == map[] && Lengths(s2.inactive.images) == map[];
  }

  lemma StoredFirst(s: Store, data: GraphicData)
    requires Initial(s) && |data.pixels| <= s.totalLimit
    ensures StoreImage(s, 1, None, data, 0, [], Replaced(s, 1, None, data, 0))
  {
    assert MakeRoom(s, |data.pixels|, Overlaid(s.active.placements) + {1}, [], true, s);
  }

  /** And across a reset. */
  lemma ResetLeaks(s: Store, data: GraphicData)
    requires Initial(s) && |data.pixels| > 0 && |data.pixels| <= s.totalLimit
    ensures var s1 := Replaced(s, 1, None, data, 0);
            var s2 := s1.(active := EMPTY_SCREEN);
            && IsRun([s, s1, s2], [OpStore(1, None, data, 0, []), OpClear([], [])])
            && HeldBytes(s2) == 0 && s2.totalBytes == |data.pixels|
  {
    var s1 := Replaced(s, 1, None, data, 0);
    var s2 := s1.(active := EMPTY_SCREEN);
    StoredFirst(s, data);
    assert Lengths(EMPTY_SCREEN.images) == map[] && Released(s1) == map[];
    assert s1.sizes - {} == s1.sizes && s1.timestamps - {} == s1.timestamps;
    assert s1.removals + [] + [] == s1.removals;
    assert Clear(s1, [], [], s2);
  }

  /** A placement can outlive its image through an eviction: an image that fills the budget is
      stored, placed, and deleted under its placement (as deleting another of its placements
      does). Its bytes stay on the books, so storing the next image asks for room; there is
      nothing left to evict, and the eviction gives up before it sweeps. */
  lemma SweepSkipped(s: Store, data: GraphicData, more: GraphicData)
    requires Initial(s) && |data.pixels| == s.totalLimit && |more.pixels| > 0
    ensures var s1 := Replaced(s, 1, None, data, 0);
            var placed := s1.active.(placements := map[(1, 1) := KittyPlacement(1, 1)]);
            var s2 := s1.(active := placed);
            var s3 := Deleted(s2, {1});
            var s4 := Replaced(s3, 2, None, more, 1);
            && IsRun([s, s1, s2, s3, s4],
                     [OpStore(1, None, data, 0, []), OpRearrange(placed, s1.inactive), OpDelete({1}), OpStore(2, None, more, 1, [])])
            && s3.totalBytes + |more.pixels| > s3.totalLimit
            && Evict(s3, |more.pixels|, Overlaid(s3.active.placements) + {2}, [], false, s3)
            && !NoDangling(s3) && !NoDangling(s4)
  {
    var s1 := Replaced(s, 1, None, data, 0);
    var placed := s1.active.(placements := map[(1, 1) := KittyPlacement(1, 1)]);
    var s3 := Deleted(s1.(active := placed), {1});
    var s4 := Replaced(s3, 2, None, more, 1);
    StoredFirst(s, data);
    assert (1, 1) in s3.active.placements && 1 !in s3.active.images;
    assert (1, 1) in s4.active.placements && 1 !in s4.active.images;
    var used := Overlaid(s3.active.placements) + {2};
    assert !HasCandidate(s3, used);
    assert Evict(s3, |more.pixels|, used, [], false, s3);
    assert MakeRoom(s3, |more.pixels|, used, [], false, s3);
    assert StoreImage(s3, 2, None, more, 1, [], s4);
  }
}
