/** What the other operations do to the graphics themselves (patches/rio-vt/src/ansi/graphics.rs,
    patches/rio-vt/src/crosswords/mod.rs): which textures and bytes a recount releases, what an
    inserted image leaves, and which numbers still name an image. */
module AtlasKeys {
  import opened Basics
  import opened GraphicsStore
  import opened GraphicsBudget

  // ---------------------------------------------------------------- references

  /** How often `key` occurs. */
  function Occurrences(placements: seq<nat>, key: nat): nat { multiset(placements)[key] }

  /** A recount counts: every placed key, as often as it is placed, and no other. */
  lemma {:induction false} CountsPlacements(placements: seq<nat>)
    ensures forall k :: k in CountKeys(placements) <==> k in placements
    ensures forall k :: k in placements ==> CountKeys(placements)[k] == Occurrences(placements, k)
  {
    if placements == [] {
    } else {
      var front, key := placements[..|placements| - 1], placements[|placements| - 1];
      assert placements == front + [key];
      CountsPlacements(front);
    }
  }

  // ---------------------------------------------------------------- release

  /** Some key of the list is graphic `id`'s, and neither screen refers to it. */
  predicate Frees(s: Store, keys: seq<nat>, id: nat) {
    exists i :: 0 <= i < |keys| && SatSub(keys[i], 0x1_0000_0000) == id
                && keys[i] !in s.active.atlasKeyRefs && keys[i] !in s.inactive.atlasKeyRefs
  }

  lemma FreesSnoc(s: Store, front: seq<nat>, key: nat, id: nat)
    ensures Frees(s, front + [key], id) <==>
              || Frees(s, front, id)
              || (SatSub(key, 0x1_0000_0000) == id && key !in s.active.atlasKeyRefs && key !in s.inactive.atlasKeyRefs)
  {
    var keys := front + [key];
    assert keys[|front|] == key;
    forall i | 0 <= i < |front| ensures keys[i] == front[i] {}
  }

  lemma {:induction false} ReleaseIsExact(s: Store, keys: seq<nat>, id: nat)
    requires s.timestamps.Keys <= s.sizes.Keys
    ensures var s' := ReleaseKeys(s, keys);
            && s' == s.(timestamps := s'.timestamps, sizes := s'.sizes, totalBytes := s'.totalBytes)
            && s'.timestamps.Keys <= s'.sizes.Keys
            && (id in s'.sizes <==> id in s.sizes && !Frees(s, keys, id))
            && (id in s'.timestamps <==> id in s.timestamps && !Frees(s, keys, id))
            && (id in s'.sizes ==> s'.sizes[id] == s.sizes[id])
            && (id in s'.timestamps ==> s'.timestamps[id] == s.timestamps[id])
  {
    if keys == [] {
    } else {
      var front, key := keys[..|keys| - 1], keys[|keys| - 1];
      assert keys == front + [key];
      ReleaseIsExact(s, front, id);
      FreesSnoc(s, front, key, id);
      hide Frees;
    }
  }

  /** Graphic `id` was on this screen, is no longer, and is not on the other. */
  predicate LeftTheGrid(here: Screen, other: Screen, id: nat) {
    var key := id + 0x1_0000_0000;
    key in here.atlasKeyRefs && key !in here.atlasPlacements && key !in other.atlasKeyRefs
  }

  /** A recount of the active screen forgets exactly the graphics that left the grid, with their
      bytes, and queues the textures of exactly the keys the screen lost. */
  lemma RecountReleases(s: Store, lost: seq<nat>, s': Store, id: nat, key: nat)
    requires s.timestamps.Keys <= s.sizes.Keys && RecountActive(s, lost, s') && id > 0
    ensures id in s'.sizes <==> id in s.sizes && !LeftTheGrid(s.active, s.inactive, id)
    ensures id in s'.timestamps <==> id in s.timestamps && !LeftTheGrid(s.active, s.inactive, id)
    ensures s.removals <= s'.removals
    ensures key in s'.removals[|s.removals|..] <==> key in s.active.atlasKeyRefs && key !in s.active.atlasPlacements
    ensures key in s'.active.atlasKeyRefs <==> key in s.active.atlasPlacements
    ensures key in s.active.atlasPlacements ==> s'.active.atlasKeyRefs[key] == Occurrences(s.active.atlasPlacements, key)
  {
    var before := s.(active := Recounted(s.active), removals := s.removals + lost);
    CountsPlacements(s.active.atlasPlacements);
    ReleaseIsExact(before, lost, id);
    FreedLeft(before, lost, s.active, s.inactive, id);
    hide ReleaseKeys, Frees;
    assert s'.removals[|s.removals|..] == lost;
  }

  /** The same for the inactive screen. */
  lemma RecountInactiveReleases(s: Store, lost: seq<nat>, s': Store, id: nat, key: nat)
    requires s.timestamps.Keys <= s.sizes.Keys && RecountInactive(s, lost, s') && id > 0
    ensures id in s'.sizes <==> id in s.sizes && !LeftTheGrid(s.inactive, s.active, id)
    ensures id in s'.timestamps <==> id in s.timestamps && !LeftTheGrid(s.inactive, s.active, id)
    ensures s.removals <= s'.removals
    ensures key in s'.removals[|s.removals|..] <==> key in s.inactive.atlasKeyRefs && key !in s.inactive.atlasPlacements
    ensures key in s'.inactive.atlasKeyRefs <==> key in s.inactive.atlasPlacements
    ensures key in s.inactive.atlasPlacements ==> s'.inactive.atlasKeyRefs[key] == Occurrences(s.inactive.atlasPlacements, key)
  {
    var before := s.(inactive := Recounted(s.inactive), removals := s.removals + lost);
    CountsPlacements(s.inactive.atlasPlacements);
    ReleaseIsExact(before, lost, id);
    FreedLeft(before, lost, s.inactive, s.active, id);
    hide ReleaseKeys, Frees;
    assert s'.removals[|s.removals|..] == lost;
  }

  lemma FreedLeft(before: Store, lost: seq<nat>, here: Screen, other: Screen, id: nat)
    requires id > 0 && Enumerates(lost, LostKeys(here))
    requires (before.active == Recounted(here) && before.inactive == other) || (before.inactive == Recounted(here) && before.active == other)
    ensures Frees(before, lost, id) <==> LeftTheGrid(here, other, id)
  {
    CountsPlacements(here.atlasPlacements);
    if Frees(before, lost, id) {
      var i :| 0 <= i < |lost| && SatSub(lost[i], 0x1_0000_0000) == id
               && lost[i] !in before.active.atlasKeyRefs && lost[i] !in before.inactive.atlasKeyRefs;
      assert lost[i] in lost;
    }
    if LeftTheGrid(here, other, id) {
      assert id + 0x1_0000_0000 in LostKeys(here);
      assert id + 0x1_0000_0000 in lost;
      var i :| 0 <= i < |lost| && lost[i] == id + 0x1_0000_0000;
      assert SatSub(lost[i], 0x1_0000_0000) == id;
    }
  }

  // ---------------------------------------------------------------- a new image

  /** An inserted image takes a number that was never used, is placed, keeps its time and its
      pixels, and waits for upload last. */
  lemma InsertedIsShown(s: Store, pixels: seq<Byte>, now: nat, used: set<nat>, kept: seq<nat>,
                        victims: seq<Candidate>, lost: seq<nat>, s': Store)
    requires Good(s) && InsertGraphic(s, pixels, now, used, kept, victims, lost, s')
    ensures var id := s.lastId + 1;
            && s'.lastId == id && id !in s.sizes
            && s'.active.atlasPlacements == kept + [id + 0x1_0000_0000]
            && id + 0x1_0000_0000 in s'.active.atlasKeyRefs
            && id in s'.timestamps && s'.timestamps[id] == now
            && s'.pending != [] && s'.pending[|s'.pending| - 1] == GraphicData(id, pixels)
  {
    hide MakeRoom, Good, RecountActive, Placed, Surplus;
    var mid, ok, counted :| && MakeRoom(s, |pixels|, used, victims, ok, mid)
                            && RecountActive(Placed(mid, |pixels|, now, kept), lost, counted)
                            && s' == counted.(pending := counted.pending + [GraphicData(counted.lastId, pixels)]);
    MakeRoomKeepsBudget(s, |pixels|, used, victims, ok, mid);
    UntrackedId(s);
    PlacedStays(mid, |pixels|, now, kept, lost, counted);
  }

  lemma PlacedStays(s: Store, bytes: nat, now: nat, kept: seq<nat>, lost: seq<nat>, s': Store)
    requires Good(s) && RecountActive(Placed(s, bytes, now, kept), lost, s')
    ensures var id := s.lastId + 1;
            && s'.lastId == id && s'.active.atlasPlacements == kept + [id + 0x1_0000_0000]
            && id + 0x1_0000_0000 in s'.active.atlasKeyRefs
            && id in s'.timestamps && s'.timestamps[id] == now && s'.pending == s.pending
  {
    hide Good, RecountActive, ReleaseKeys;
    var placed, id := Placed(s, bytes, now, kept), s.lastId + 1;
    PlacedKeepsBudget(s, bytes, now, kept);
    RecountInputs(placed);
    RecountReleases(placed, lost, s', id, id + 0x1_0000_0000);
    RecountKeepsTimes(placed, lost, s', id);
  }

  lemma RecountKeepsTimes(s: Store, lost: seq<nat>, s': Store, id: nat)
    requires s.timestamps.Keys <= s.sizes.Keys && RecountActive(s, lost, s')
    ensures s'.lastId == s.lastId && s'.pending == s.pending && s'.active.atlasPlacements == s.active.atlasPlacements
    ensures id in s'.timestamps ==> id in s.timestamps && s'.timestamps[id] == s.timestamps[id]
  {
    hide ReleaseKeys, Frees, Enumerates;
    ReleaseIsExact(s.(active := Recounted(s.active), removals := s.removals + lost), lost, id);
  }

  lemma UntrackedId(s: Store)
    requires Good(s)
    ensures s.lastId + 1 !in s.sizes
  {
  }

  lemma RecountInputs(s: Store)
    requires Good(s)
    ensures s.timestamps.Keys <= s.sizes.Keys
  {
  }

  // ---------------------------------------------------------------- the other operations

  /** A full reset leaves no image, number or placement on either screen, keeps what waits for
      upload and exactly its bytes, and queues the texture of every key a screen referred to. */
  lemma ResetForgetsScreens(s: Store, activeKeys: seq<nat>, inactiveKeys: seq<nat>, s': Store, id: nat, key: nat)
    requires Clear(s, activeKeys, inactiveKeys, s')
    ensures s'.active == s'.inactive == Screen(map[], map[], map[], map[], [], map[])
    ensures s'.pending == s.pending && s'.lastId == s.lastId && s.removals <= s'.removals
    ensures id in s'.sizes <==> id in s.sizes && exists g :: g in s.pending && g.id == id
    ensures id in s'.timestamps ==> id in s.timestamps && s'.timestamps[id] == s.timestamps[id]
    ensures id in s.timestamps && (id in s.sizes ==> exists g :: g in s.pending && g.id == id) ==> id in s'.timestamps
    ensures key in s'.removals[|s.removals|..] <==> key in s.active.atlasKeyRefs || key in s.inactive.atlasKeyRefs
  {
    hide ImageBytes, Sum;
    assert s'.removals[|s.removals|..] == activeKeys + inactiveKeys;
  }

  /** Every number names an image of its own screen. */
  predicate NumbersResolve(s: Store) {
    && (forall n :: n in s.active.numbers ==> s.active.numbers[n] in s.active.images)
    && (forall n :: n in s.inactive.numbers ==> s.inactive.numbers[n] in s.inactive.images)
  }

  lemma RoomKeepsNumbers(s: Store, required: nat, used: set<nat>, victims: seq<Candidate>, ok: bool, s': Store)
    requires NumbersResolve(s) && MakeRoom(s, required, used, victims, ok, s')
    ensures NumbersResolve(s')
  {
    hide Chosen, IsCandidate, KeepPending;
  }

  lemma RecountKeepsScreens(s: Store, lost: seq<nat>, s': Store)
    requires s.timestamps.Keys <= s.sizes.Keys && (RecountActive(s, lost, s') || RecountInactive(s, lost, s'))
    ensures s'.active == s.active.(atlasKeyRefs := s'.active.atlasKeyRefs)
    ensures s'.inactive == s.inactive.(atlasKeyRefs := s'.inactive.atlasKeyRefs)
  {
    hide ReleaseKeys, Frees, Enumerates;
    ReleaseIsExact(s.(active := Recounted(s.active), removals := s.removals + lost), lost, 0);
    ReleaseIsExact(s.(inactive := Recounted(s.inactive), removals := s.removals + lost), lost, 0);
  }

  lemma InsertKeepsNumbers(s: Store, pixels: seq<Byte>, now: nat, used: set<nat>, kept: seq<nat>,
                           victims: seq<Candidate>, lost: seq<nat>, s': Store)
    requires Good(s) && NumbersResolve(s) && InsertGraphic(s, pixels, now, used, kept, victims, lost, s')
    ensures NumbersResolve(s')
  {
    hide MakeRoom, Good, RecountActive, Surplus;
    var mid, ok, counted :| && MakeRoom(s, |pixels|, used, victims, ok, mid)
                            && RecountActive(Placed(mid, |pixels|, now, kept), lost, counted)
                            && s' == counted.(pending := counted.pending + [GraphicData(counted.lastId, pixels)]);
    RoomKeepsNumbers(s, |pixels|, used, victims, ok, mid);
    MakeRoomKeepsBudget(s, |pixels|, used, victims, ok, mid);
    PlacedKeepsBudget(mid, |pixels|, now, kept);
    RecountInputs(Placed(mid, |pixels|, now, kept));
    RecountKeepsScreens(Placed(mid, |pixels|, now, kept), lost, counted);
  }

  lemma StoreKeepsNumbers(s: Store, id: nat, number: Option<nat>, data: GraphicData, now: nat, victims: seq<Candidate>, s': Store)
    requires NumbersResolve(s) && StoreImage(s, id, number, data, now, victims, s')
    ensures NumbersResolve(s')
  {
    hide MakeRoom;
    var used := Overlaid(s.active.placements) + {id};
    var mid, ok :| MakeRoom(s, |data.pixels|, used, victims, ok, mid) && s' == Replaced(mid, id, number, data, now);
    RoomKeepsNumbers(s, |data.pixels|, used, victims, ok, mid);
  }

  lemma StepKeepsNumbers(s: Store, op: Op, s': Store)
    requires Good(s) && NumbersResolve(s) && Step(s, op, s')
    ensures NumbersResolve(s')
  {
    hide StoreImage, InsertGraphic, RecountActive, RecountInactive, ReleaseKeys, Good, Evict, HeldBytes, Enumerates;
    match op
    case OpStore(id, number, data, now, victims) => StoreKeepsNumbers(s, id, number, data, now, victims, s');
    case OpEvict(required, used, victims, ok) => EvictKeepsNumbers(s, required, used, victims, ok, s');
    case OpInsert(pixels, now, used, kept, victims, lost) => InsertKeepsNumbers(s, pixels, now, used, kept, victims, lost, s');
    case OpRecountActive(lost) => RecountInputs(s); RecountKeepsScreens(s, lost, s');
    case OpRecountInactive(lost) => RecountInputs(s); RecountKeepsScreens(s, lost, s');
    case OpReleaseKeys(keys) => RecountInputs(s); ReleaseIsExact(s, keys, 0);
    case _ =>
  }

  lemma EvictKeepsNumbers(s: Store, required: nat, used: set<nat>, victims: seq<Candidate>, ok: bool, s': Store)
    requires NumbersResolve(s) && Evict(s, required, used, victims, ok, s')
    ensures NumbersResolve(s')
  {
    hide Chosen, IsCandidate, KeepPending;
  }

  /** In every run a number that is remembered names an image that is there. */
  lemma {:induction false} RunKeepsNumbers(states: seq<Store>, ops: seq<Op>, n: nat)
    requires IsRun(states, ops) && n <= |ops|
    ensures NumbersResolve(states[n])
  {
    hide Step, Good, NumbersResolve, HeldBytes, Leaked;
    if n == 0 {
      NoNumbers(states[0]);
    } else {
      RunKeepsNumbers(states, ops, n - 1);
      RunKeepsBudget(states, ops, n - 1);
      StepKeepsNumbers(states[n - 1], ops[n - 1], states[n]);
    }
  }

  lemma NoNumbers(s: Store)
    requires Initial(s)
    ensures NumbersResolve(s)
  {
  }

  /** A delete removes exactly the images asked for and their numbers, from the active screen only. */
  lemma DeleteIsExact(s: Store, gone: set<nat>)
    requires NumbersResolve(s)
    ensures var s' := Deleted(s, gone);
            && s'.inactive == s.inactive && s'.pending == s.pending && s'.totalBytes == s.totalBytes
            && s'.active.placements == s.active.placements
            && (forall id :: id in s'.active.images <==> id in s.active.images && id !in gone)
            && (forall id :: id in s'.active.images ==> s'.active.images[id] == s.active.images[id])
            && (forall n :: n in s'.active.numbers <==> n in s.active.numbers && s.active.numbers[n] !in gone)
            && (forall n :: n in s'.active.numbers ==> s'.active.numbers[n] == s.active.numbers[n])
  {
  }
}
