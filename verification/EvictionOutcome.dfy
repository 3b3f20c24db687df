/** What making room does to the images and graphics themselves
    (patches/rio-vt/src/ansi/graphics.rs): who goes before whom, what is forgotten with them,
    and when anything goes at all. */
module EvictionOutcome {
  import opened Basics
  import opened GraphicsStore
  import opened GraphicsBudget

  // ---------------------------------------------------------------- victims and what they were

  function ActiveCandidate(s: Store, used: set<nat>, id: nat): Candidate
    requires id in s.active.images
  {
    Candidate(id, s.active.images[id].transmissionTime, id in used, |s.active.images[id].data.pixels|, ActiveKitty)
  }

  function InactiveCandidate(s: Store, id: nat): Candidate
    requires id in s.inactive.images
  {
    Candidate(id, s.inactive.images[id].transmissionTime, false, |s.inactive.images[id].data.pixels|, InactiveKitty)
  }

  /** A graphic that waits for upload and can be evicted. */
  predicate Evictable(s: Store, used: set<nat>, g: GraphicData) {
    g in s.pending && g.id in s.timestamps && g.id !in used
  }

  function WaitingCandidate(s: Store, g: GraphicData): Candidate
    requires g.id in s.timestamps
  {
    Candidate(g.id, s.timestamps[g.id], false, |g.pixels|, Pending)
  }

  /** An image is gone exactly when its candidate is a victim. */
  lemma GoneIsVictim(s: Store, required: nat, used: set<nat>, victims: seq<Candidate>, ok: bool, s': Store)
    requires PendingNoDup(s.pending) && Evict(s, required, used, victims, ok, s')
    ensures forall id :: id in s.active.images ==>
              IsCandidate(s, used, ActiveCandidate(s, used, id))
              && (id !in s'.active.images <==> ActiveCandidate(s, used, id) in victims)
    ensures forall id :: id in s.inactive.images ==>
              IsCandidate(s, used, InactiveCandidate(s, id))
              && (id !in s'.inactive.images <==> InactiveCandidate(s, id) in victims)
    ensures forall g :: Evictable(s, used, g) ==>
              IsCandidate(s, used, WaitingCandidate(s, g)) && (g !in s'.pending <==> WaitingCandidate(s, g) in victims)
  {
    if Scans(s, required, used) {
      hide Chosen;
      VictimFacts(s, used, s.totalBytes + required - s.totalLimit, victims);
      KeepPendingFacts(s.pending, Ids(victims, Pending));
      forall g | Evictable(s, used, g)
        ensures IsCandidate(s, used, WaitingCandidate(s, g)) && (g !in s'.pending <==> WaitingCandidate(s, g) in victims)
      {
        WaitingIsCandidate(s, used, g);
        if g.id in Ids(victims, Pending) {
          var v :| v in victims && v.source == Pending && v.id == g.id;
          CandidateUnique(s, used, v, WaitingCandidate(s, g));
        }
      }
    } else {
      forall g | Evictable(s, used, g) ensures IsCandidate(s, used, WaitingCandidate(s, g)) { WaitingIsCandidate(s, used, g); }
    }
  }

  lemma WaitingIsCandidate(s: Store, used: set<nat>, g: GraphicData)
    requires Evictable(s, used, g)
    ensures IsCandidate(s, used, WaitingCandidate(s, g))
  {
    var i :| 0 <= i < |s.pending| && s.pending[i] == g;
    assert s.pending[i].id == g.id;
  }

  // ---------------------------------------------------------------- who goes before whom

  /** Nothing that is not on show is left to go: the other screen has no image, and neither an
      image that nothing shows nor an idle graphic older than `time` stays. */
  predicate NothingIdleBefore(s: Store, s': Store, used: set<nat>, time: nat) {
    && s'.inactive.images == map[]
    && (forall k :: k in s'.active.images && k !in used ==> time <= s'.active.images[k].transmissionTime)
    && (forall g :: g in s'.pending && g.id in s.timestamps && g.id !in used ==> time <= s.timestamps[g.id])
  }

  /** An image that is on show goes last: then nothing idle stays at all, and every image that
      stays is on show and no older. */
  lemma ShownGoesLast(s: Store, required: nat, used: set<nat>, victims: seq<Candidate>, ok: bool, s': Store, id: nat)
    requires PendingNoDup(s.pending) && Evict(s, required, used, victims, ok, s')
    requires id in s.active.images && id !in s'.active.images && id in used
    ensures s'.inactive.images == map[]
    ensures forall k :: k in s'.active.images ==>
              k in used && s.active.images[id].transmissionTime <= s.active.images[k].transmissionTime
    ensures forall g :: g in s'.pending && g.id in s.timestamps ==> g.id in used
  {
    var v := ActiveCandidate(s, used, id);
    NothingNew(s, required, used, victims, ok, s');
    OthersAfter(s, required, used, victims, ok, s', v);
  }

  /** An image that nothing shows goes before any that is shown, oldest first, and only once the
      other screen's images are gone. */
  lemma IdleGoesBeforeShown(s: Store, required: nat, used: set<nat>, victims: seq<Candidate>, ok: bool, s': Store, id: nat)
    requires PendingNoDup(s.pending) && Evict(s, required, used, victims, ok, s')
    requires id in s.active.images && id !in s'.active.images && id !in used
    ensures NothingIdleBefore(s, s', used, s.active.images[id].transmissionTime)
  {
    var v := ActiveCandidate(s, used, id);
    NothingNew(s, required, used, victims, ok, s');
    OthersAfter(s, required, used, victims, ok, s', v);
  }

  /** And so does a graphic that waits for upload. */
  lemma WaitingGoesBeforeShown(s: Store, required: nat, used: set<nat>, victims: seq<Candidate>, ok: bool, s': Store, g: GraphicData)
    requires PendingNoDup(s.pending) && Evict(s, required, used, victims, ok, s')
    requires Evictable(s, used, g) && g !in s'.pending
    ensures NothingIdleBefore(s, s', used, s.timestamps[g.id])
  {
    var v := WaitingCandidate(s, g);
    NothingNew(s, required, used, victims, ok, s');
    OthersAfter(s, required, used, victims, ok, s', v);
  }

  /** The other screen's images go oldest first. */
  lemma InactiveGoesOldestFirst(s: Store, required: nat, used: set<nat>, victims: seq<Candidate>, ok: bool, s': Store, id: nat, k: nat)
    requires PendingNoDup(s.pending) && Evict(s, required, used, victims, ok, s')
    requires id in s.inactive.images && id !in s'.inactive.images && k in s'.inactive.images
    ensures k in s.inactive.images && s.inactive.images[id].transmissionTime <= s.inactive.images[k].transmissionTime
  {
    NothingNew(s, required, used, victims, ok, s');
    var v := InactiveCandidate(s, id);
    OthersAfter(s, required, used, victims, ok, s', v);
  }

  lemma NothingNew(s: Store, required: nat, used: set<nat>, victims: seq<Candidate>, ok: bool, s': Store)
    requires Evict(s, required, used, victims, ok, s')
    ensures forall k :: k in s'.active.images ==> k in s.active.images && s'.active.images[k] == s.active.images[k]
    ensures forall k :: k in s'.inactive.images ==> k in s.inactive.images && s'.inactive.images[k] == s.inactive.images[k]
    ensures forall g :: g in s'.pending ==> g in s.pending
  {
    hide Chosen;
    KeepPendingFacts(s.pending, Ids(victims, Pending));
  }

  /** Everything that stays was due after `v`. */
  lemma OthersAfter(s: Store, required: nat, used: set<nat>, victims: seq<Candidate>, ok: bool, s': Store, v: Candidate)
    requires PendingNoDup(s.pending) && Evict(s, required, used, victims, ok, s')
    requires v.source.ActiveKitty? ==> v.id in s.active.images && v == ActiveCandidate(s, used, v.id) && v.id !in s'.active.images
    requires v.source.InactiveKitty? ==> v.id in s.inactive.images && v == InactiveCandidate(s, v.id) && v.id !in s'.inactive.images
    requires v.source.Pending? ==> exists g :: Evictable(s, used, g) && v == WaitingCandidate(s, g) && g !in s'.pending
    ensures forall k :: k in s'.active.images ==>
              k in s.active.images
              && (v.source.ActiveKitty? && v.id in used ==> k in used && v.time <= s.active.images[k].transmissionTime)
              && (!v.source.InactiveKitty? && k !in used ==> v.time <= s.active.images[k].transmissionTime)
    ensures !v.source.InactiveKitty? ==> s'.inactive.images == map[]
    ensures forall k :: k in s'.inactive.images ==>
              k in s.inactive.images && (v.source.InactiveKitty? ==> v.time <= s.inactive.images[k].transmissionTime)
    ensures forall g :: g in s'.pending && g.id in s.timestamps && g.id !in used ==>
              && !(v.source.ActiveKitty? && v.id in used)
              && (!v.source.InactiveKitty? ==> v.time <= s.timestamps[g.id])
  {
    GoneIsVictim(s, required, used, victims, ok, s');
    NothingNew(s, required, used, victims, ok, s');
    assert v in victims;
    hide Evict, IsCandidate, Tier, PendingNoDup;
    forall k | k in s'.active.images
      ensures v.source.ActiveKitty? && v.id in used ==> k in used && v.time <= s.active.images[k].transmissionTime
      ensures !v.source.InactiveKitty? && k !in used ==> v.time <= s.active.images[k].transmissionTime
    {
      EvictInOrder(s, required, used, victims, ok, s', v, ActiveCandidate(s, used, k));
    }
    forall k | k in s'.inactive.images
      ensures v.source.InactiveKitty? && v.time <= s.inactive.images[k].transmissionTime
    {
      EvictInOrder(s, required, used, victims, ok, s', v, InactiveCandidate(s, k));
    }
    forall g | g in s'.pending && g.id in s.timestamps && g.id !in used
      ensures !(v.source.ActiveKitty? && v.id in used)
      ensures !v.source.InactiveKitty? ==> v.time <= s.timestamps[g.id]
    {
      EvictInOrder(s, required, used, victims, ok, s', v, WaitingCandidate(s, g));
    }
  }

  // ---------------------------------------------------------------- what goes with them

  /** The image that number `n` named is gone. */
  predicate NamesGone(t: Screen, t': Screen, n: nat)
    requires n in t.numbers
  {
    t.numbers[n] in t.images && t.numbers[n] !in t'.images
  }

  /** On either screen a number is forgotten exactly with the image it names. */
  lemma NumbersGoWithImages(s: Store, required: nat, used: set<nat>, victims: seq<Candidate>, ok: bool, s': Store)
    requires PendingNoDup(s.pending) && Evict(s, required, used, victims, ok, s')
    ensures forall n :: n in s'.active.numbers <==> n in s.active.numbers && !NamesGone(s.active, s'.active, n)
    ensures forall n :: n in s'.inactive.numbers <==> n in s.inactive.numbers && !NamesGone(s.inactive, s'.inactive, n)
    ensures forall n :: n in s'.active.numbers ==> s'.active.numbers[n] == s.active.numbers[n]
    ensures forall n :: n in s'.inactive.numbers ==> s'.inactive.numbers[n] == s.inactive.numbers[n]
  {
    if Scans(s, required, used) {
      hide Chosen;
      VictimFacts(s, used, s.totalBytes + required - s.totalLimit, victims);
    }
  }

  /** The textures queued for removal by an eviction are exactly those of the images and graphics
      that went; an atlas graphic's texture lies above every image id. */
  lemma TexturesGoWithImages(s: Store, required: nat, used: set<nat>, victims: seq<Candidate>, ok: bool, s': Store, key: nat)
    requires PendingNoDup(s.pending) && Evict(s, required, used, victims, ok, s')
    ensures s.removals <= s'.removals
    ensures key in s'.removals[|s.removals|..] <==>
              || (key in s.active.images && key !in s'.active.images)
              || (key in s.inactive.images && key !in s'.inactive.images)
              || (exists g :: g in s.pending && g !in s'.pending && key == g.id + 0x1_0000_0000)
  {
    hide Chosen;
    RemovalKeysAre(victims, key);
    hide RemovalKeys;
    if Scans(s, required, used) {
      VictimFacts(s, used, s.totalBytes + required - s.totalLimit, victims);
      KeepPendingFacts(s.pending, Ids(victims, Pending));
      assert s'.removals[|s.removals|..] == RemovalKeys(victims);
      forall v | v in victims && v.source.Pending? ensures exists g :: g in s.pending && g !in s'.pending && g.id == v.id {
        var i :| 0 <= i < |s.pending| && s.pending[i].id == v.id && |s.pending[i].pixels| == v.bytes;
        assert s.pending[i] !in s'.pending;
      }
    } else {
      assert s'.removals[|s.removals|..] == [];
    }
  }

  lemma {:induction false} RemovalKeysAre(victims: seq<Candidate>, key: nat)
    ensures key in RemovalKeys(victims) <==>
              exists v :: v in victims && key == if v.source.Pending? then v.id + 0x1_0000_0000 else v.id
  {
    if victims == [] {
    } else {
      var front, last := victims[..|victims| - 1], victims[|victims| - 1];
      assert victims == front + [last];
      RemovalKeysAre(front, key);
    }
  }

  /** Once anything is over the limit and can go, a placement is dropped exactly when its image is
      not on its screen, on both screens. */
  lemma PlacementsGoWithImages(s: Store, required: nat, used: set<nat>, victims: seq<Candidate>, ok: bool, s': Store)
    requires Evict(s, required, used, victims, ok, s') && Scans(s, required, used)
    ensures forall p :: p in s'.active.placements <==> p in s.active.placements && s.active.placements[p].imageId in s'.active.images
    ensures forall p :: p in s'.inactive.placements <==> p in s.inactive.placements && s.inactive.placements[p].imageId in s'.inactive.images
    ensures forall p :: p in s'.active.placements ==> s'.active.placements[p] == s.active.placements[p]
    ensures forall p :: p in s'.inactive.placements ==> s'.inactive.placements[p] == s.inactive.placements[p]
    ensures s'.active.atlasPlacements == s.active.atlasPlacements && s'.inactive.atlasPlacements == s.inactive.atlasPlacements
    ensures s'.active.virtualPlacements == s.active.virtualPlacements && s'.inactive.virtualPlacements == s.inactive.virtualPlacements
  {
    hide Chosen, IsCandidate, KeepPending;
  }

  // ---------------------------------------------------------------- storing an image

  /** The other images of the active screen that may stay. */
  predicate OthersUnchanged(s: Store, s': Store, id: nat) {
    && (forall k :: k in s'.active.images && k != id ==> k in s.active.images && s'.active.images[k] == s.active.images[k])
    && (forall k :: k in s'.inactive.images ==> k in s.inactive.images && s'.inactive.images[k] == s.inactive.images[k])
    && (forall g :: g in s'.pending ==> g in s.pending)
  }

  /** Storing an image stores it, under its id and number. When it fits, nothing else goes; when
      it does not, something goes until it fits, and the store is left over its limit only when
      nothing but the new image is left that could go. */
  lemma StoringFits(s: Store, id: nat, number: Option<nat>, data: GraphicData, now: nat, victims: seq<Candidate>, s': Store)
    requires Good(s) && StoreImage(s, id, number, data, now, victims, s')
    ensures id in s'.active.images && s'.active.images[id] == StoredImage(data, now)
    ensures number.Some? ==> number.value in s'.active.numbers && s'.active.numbers[number.value] == id
    ensures OthersUnchanged(s, s', id)
    ensures s.totalBytes + |data.pixels| <= s.totalLimit ==>
              && s'.active.images.Keys == s.active.images.Keys + {id} && s'.inactive == s.inactive
              && s'.pending == s.pending && s'.removals == s.removals && victims == []
    ensures s'.totalBytes > s'.totalLimit ==>
              && s'.active.images.Keys == {id} && s'.inactive.images == map[]
              && forall g :: !Evictable(s', Overlaid(s.active.placements) + {id}, g)
  {
    hide Overlaid, MakeRoom, Good;
    var used := Overlaid(s.active.placements) + {id};
    var mid, ok :| MakeRoom(s, |data.pixels|, used, victims, ok, mid) && s' == Replaced(mid, id, number, data, now);
    RoomFits(s, |data.pixels|, used, victims, ok, mid);
    forall g ensures Evictable(s', used, g) <==> Evictable(mid, used, g) {}
  }

  lemma RoomFits(s: Store, required: nat, used: set<nat>, victims: seq<Candidate>, ok: bool, s': Store)
    requires Good(s) && MakeRoom(s, required, used, victims, ok, s')
    ensures forall k :: k in s'.active.images ==> k in s.active.images && s'.active.images[k] == s.active.images[k]
    ensures forall k :: k in s'.inactive.images ==> k in s.inactive.images && s'.inactive.images[k] == s.inactive.images[k]
    ensures forall g :: g in s'.pending ==> g in s.pending
    ensures s.totalBytes + required <= s.totalLimit ==> s' == s && victims == []
    ensures s'.totalBytes + required > s'.totalLimit ==>
              s'.active.images == map[] && s'.inactive.images == map[] && forall g :: !Evictable(s', used, g)
  {
    if s.totalBytes + required > s.totalLimit {
      hide Good, PendingNoDup, Evict, HeldBytes;
      GoodParts(s);
      NothingNew(s, required, used, victims, ok, s');
      EvictKeepsBudget(s, required, used, victims, ok, s');
      if !ok { NothingLeft(s, required, used, victims, s'); }
    }
  }

  lemma GoodParts(s: Store)
    requires Good(s)
    ensures Consistent(s) && Covered(s) && PendingNoDup(s.pending)
  {
  }

  /** An eviction that does not free enough leaves nothing it could have freed. */
  lemma NothingLeft(s: Store, required: nat, used: set<nat>, victims: seq<Candidate>, s': Store)
    requires PendingNoDup(s.pending) && Evict(s, required, used, victims, false, s')
    ensures s'.active.images == map[] && s'.inactive.images == map[] && forall g :: !Evictable(s', used, g)
  {
    GoneIsVictim(s, required, used, victims, false, s');
    NothingNew(s, required, used, victims, false, s');
    hide Chosen;
    if Scans(s, required, used) {
      VictimFacts(s, used, s.totalBytes + required - s.totalLimit, victims);
    }
  }

  /** Some placement of the active screen shows image `id`. */
  predicate OnShow(s: Store, id: nat) {
    exists p :: p in s.active.placements && s.active.placements[p].imageId == id
  }

  /** Storing an image drops one that is on show only when, beside the new one, nothing but
      images on show is left on either screen. */
  lemma StoringSparesShown(s: Store, id: nat, number: Option<nat>, data: GraphicData, now: nat, victims: seq<Candidate>, s': Store, k: nat)
    requires Good(s) && StoreImage(s, id, number, data, now, victims, s')
    requires k in s.active.images && k !in s'.active.images && OnShow(s, k)
    ensures s'.inactive.images == map[] && forall j :: j in s'.active.images && j != id ==> OnShow(s, j)
  {
    hide MakeRoom, Good;
    var used := Overlaid(s.active.placements) + {id};
    var mid, ok :| MakeRoom(s, |data.pixels|, used, victims, ok, mid) && s' == Replaced(mid, id, number, data, now);
    RoomSparesShown(s, |data.pixels|, used, victims, ok, mid, k);
  }

  lemma RoomSparesShown(s: Store, required: nat, used: set<nat>, victims: seq<Candidate>, ok: bool, s': Store, k: nat)
    requires Good(s) && MakeRoom(s, required, used, victims, ok, s')
    requires k in used && k in s.active.images && k !in s'.active.images
    ensures s'.inactive.images == map[] && forall j :: j in s'.active.images ==> j in used
  {
    hide Good, PendingNoDup, Evict;
    GoodParts(s);
    if s.totalBytes + required > s.totalLimit {
      ShownGoesLast(s, required, used, victims, ok, s', k);
    }
  }
}
