/** The image store as the object the terminal updates in place
    (patches/rio-vt/src/ansi/graphics.rs). Every method is proved against the relation of the
    same operation in `GraphicsStore`; what those relations keep is proved in `GraphicsBudget`. */
module TerminalGraphics {
  import opened Basics
  import opened GraphicsStore

  // ---------------------------------------------------------------- eviction candidates

  /** The candidate a pending graphic is, if it still has its timestamp and the grid does not
      show it. */
  function PendingOne(s: Store, used: set<nat>, g: GraphicData): seq<Candidate> {
    if g.id in s.timestamps && g.id !in used
    then [Candidate(g.id, s.timestamps[g.id], false, |g.pixels|, Pending)] else []
  }

  function PendingOf(s: Store, used: set<nat>, pending: seq<GraphicData>): seq<Candidate> {
    if pending == [] then []
    else PendingOf(s, used, pending[..|pending| - 1]) + PendingOne(s, used, pending[|pending| - 1])
  }

  lemma {:induction false} PendingOfFacts(s: Store, used: set<nat>, pending: seq<GraphicData>)
    requires PendingNoDup(pending)
    ensures forall c :: c in PendingOf(s, used, pending) <==> exists i :: 0 <= i < |pending| && c in PendingOne(s, used, pending[i])
    ensures NoDup(PendingOf(s, used, pending))
  {
    if pending == [] {
    } else {
      var n := |pending| - 1;
      var front := pending[..n];
      PendingOfFacts(s, used, front);
      hide PendingOf;
      var cs := PendingOf(s, used, front);
      PendingStep(s, used, pending);
      OneHasId(s, used, pending);
      hide PendingOne;
      forall c ensures c in PendingOf(s, used, pending) <==> exists i :: 0 <= i < |pending| && c in PendingOne(s, used, pending[i]) {
        assert forall i :: 0 <= i < n ==> front[i] == pending[i];
        if c in PendingOne(s, used, pending[n]) { assert c in PendingOf(s, used, pending); }
      }
      forall c | c in cs ensures c !in PendingOne(s, used, pending[n]) {
        var i :| 0 <= i < n && c in PendingOne(s, used, front[i]);
        assert front[i] == pending[i];
      }
      NoDupPlus(cs, PendingOne(s, used, pending[n]));
    }
  }

  lemma NoDupPlus(a: seq<Candidate>, b: seq<Candidate>)
    requires NoDup(a) && |b| <= 1 && forall c :: c in a ==> c !in b
    ensures NoDup(a + b)
  {
    if b == [] {
      assert a + b == a;
    } else {
      forall i, j | 0 <= i < j < |a + b| ensures (a + b)[i] != (a + b)[j] {
        if j == |a| { assert a[i] in a && b[0] in b && (a + b)[j] == b[0]; }
      }
    }
  }

  lemma PendingStep(s: Store, used: set<nat>, pending: seq<GraphicData>)
    requires pending != []
    ensures PendingOf(s, used, pending) == PendingOf(s, used, pending[..|pending| - 1]) + PendingOne(s, used, pending[|pending| - 1])
    ensures |PendingOne(s, used, pending[|pending| - 1])| <= 1
  {
  }

  lemma OneHasId(s: Store, used: set<nat>, pending: seq<GraphicData>)
    requires PendingNoDup(pending)
    ensures forall i, j, c :: 0 <= i < j < |pending| && c in PendingOne(s, used, pending[i]) ==> c !in PendingOne(s, used, pending[j])
  {
  }

  lemma PendingOfIsCandidates(s: Store, used: set<nat>)
    requires PendingNoDup(s.pending)
    ensures NoDup(PendingOf(s, used, s.pending))
    ensures forall c :: c in PendingOf(s, used, s.pending) <==> c.source == Pending && IsCandidate(s, used, c)
  {
    hide NoDup, PendingOf;
    PendingOfFacts(s, used, s.pending);
    forall c ensures (exists i :: 0 <= i < |s.pending| && c in PendingOne(s, used, s.pending[i])) <==> c.source == Pending && IsCandidate(s, used, c) {
      if c.source == Pending && IsCandidate(s, used, c) {
        var k :| 0 <= k < |s.pending| && s.pending[k].id == c.id && |s.pending[k].pixels| == c.bytes;
        assert c in PendingOne(s, used, s.pending[k]);
      }
    }
  }

  method PendingCandidates(s: Store, used: set<nat>) returns (cs: seq<Candidate>)
    requires PendingNoDup(s.pending)
    ensures NoDup(cs)
    ensures forall c :: c in cs <==> c.source == Pending && IsCandidate(s, used, c)
  {
    hide NoDup, IsCandidate;
    cs := [];
    for i := 0 to |s.pending|
      invariant cs == PendingOf(s, used, s.pending[..i])
    {
      var g := s.pending[i];
      assert s.pending[..i + 1][..i] == s.pending[..i];
      if g.id in s.timestamps {
        if g.id in used {
          continue;
        }
        cs := cs + [Candidate(g.id, s.timestamps[g.id], false, |g.pixels|, Pending)];
      }
    }
    assert s.pending[..|s.pending|] == s.pending;
    PendingOfIsCandidates(s, used);
  }

  /** The images of one screen; only the active screen's can count as used. */
  method ImageCandidates(images: map<nat, StoredImage>, used: set<nat>, source: Source) returns (cs: seq<Candidate>)
    requires !source.Pending?
    ensures NoDup(cs)
    ensures forall c :: c in cs <==> c.source == source && ImageCandidate(images, c) && c.used == (source.ActiveKitty? && c.id in used)
  {
    cs := [];
    var todo := images.Keys;
    while todo != {}
      invariant todo <= images.Keys && NoDup(cs)
      invariant forall c :: c in cs <==> c.source == source && ImageCandidate(images, c)
                                         && c.used == (source.ActiveKitty? && c.id in used) && c.id !in todo
    {
      var id :| id in todo;
      todo := todo - {id};
      var image := images[id];
      cs := cs + [Candidate(id, image.transmissionTime, source.ActiveKitty? && id in used, |image.data.pixels|, source)];
    }
  }

  method CollectCandidates(s: Store, used: set<nat>) returns (cs: seq<Candidate>)
    requires PendingNoDup(s.pending)
    ensures NoDup(cs)
    ensures forall c :: c in cs <==> IsCandidate(s, used, c)
  {
    var p := PendingCandidates(s, used);
    var a := ImageCandidates(s.active.images, used, ActiveKitty);
    var i := ImageCandidates(s.inactive.images, used, InactiveKitty);
    cs := p + a + i;
    assert forall c :: c in cs <==> c in p || c in a || c in i;
    forall j, k | 0 <= j < k < |cs| ensures cs[j] != cs[k] {
      assert k < |p| ==> cs[j] in p && cs[k] in p;
      assert (p + a)[..] + i == cs;
    }
  }

  /** Sort by tier, then oldest first. */
  method SortCandidates(cs: seq<Candidate>) returns (sorted: seq<Candidate>)
    requires NoDup(cs)
    ensures NoDup(sorted) && InOrder(sorted)
    ensures forall c :: c in sorted <==> c in cs
    ensures |sorted| == |cs|
  {
    sorted := [];
    for i := 0 to |cs|
      invariant NoDup(sorted) && InOrder(sorted) && |sorted| == i
      invariant forall c :: c in sorted <==> c in cs[..i]
    {
      assert cs[i] !in cs[..i];
      assert cs[..i + 1] == cs[..i] + [cs[i]];
      var at := |sorted|;
      while at > 0 && Before(cs[i], sorted[at - 1])
        invariant 0 <= at <= |sorted|
        invariant forall k :: at <= k < |sorted| ==> Before(cs[i], sorted[k])
      {
        at := at - 1;
      }
      InsertAtSorts(sorted, at, cs[i]);
      sorted := InsertAt(sorted, at, cs[i]);
    }
    assert cs[..|cs|] == cs;
  }

  function InsertAt(sorted: seq<Candidate>, at: nat, c: Candidate): seq<Candidate>
    requires at <= |sorted|
  {
    sorted[..at] + [c] + sorted[at..]
  }

  /** Put where it belongs, a new candidate keeps the list sorted. */
  lemma InsertAtSorts(sorted: seq<Candidate>, at: nat, c: Candidate)
    requires at <= |sorted| && NoDup(sorted) && InOrder(sorted) && c !in sorted
    requires forall k :: at <= k < |sorted| ==> Before(c, sorted[k])
    requires at > 0 ==> !Before(c, sorted[at - 1])
    ensures NoDup(InsertAt(sorted, at, c)) && InOrder(InsertAt(sorted, at, c))
    ensures forall x :: x in InsertAt(sorted, at, c) <==> x in sorted || x == c
  {
    InsertAtElements(sorted, at, c);
    forall k | 0 <= k < at ensures !Before(c, sorted[k]) {
      if k < at - 1 { assert !Before(sorted[at - 1], sorted[k]); }
    }
    hide NoDup;
    var r := InsertAt(sorted, at, c);
    forall i, j | 0 <= i < j < |r| ensures !Before(r[j], r[i]) {
      var i', j' := if i < at then i else i - 1, if j < at then j else j - 1;
      if i != at && j != at {
        assert r[i] == sorted[i'] && r[j] == sorted[j'] && !Before(sorted[j'], sorted[i']);
      }
    }
  }

  lemma InsertAtElements(sorted: seq<Candidate>, at: nat, c: Candidate)
    requires at <= |sorted| && NoDup(sorted) && c !in sorted
    ensures NoDup(InsertAt(sorted, at, c)) && |InsertAt(sorted, at, c)| == |sorted| + 1
    ensures forall k :: 0 <= k <= |sorted| ==>
              InsertAt(sorted, at, c)[k] == if k < at then sorted[k] else if k == at then c else sorted[k - 1]
    ensures forall x :: x in InsertAt(sorted, at, c) <==> x in sorted || x == c
  {
    assert sorted == sorted[..at] + sorted[at..];
  }

  // ---------------------------------------------------------------- removing one victim

  /** What the removal loop does for one victim. */
  function RemoveOne(s: Store, v: Candidate): Store {
    var r := match v.source
      case Pending => s.(pending := KeepPending(s.pending, {v.id}), sizes := s.sizes - {v.id})
      case ActiveKitty => s.(active := WithoutImages(s.active, {v.id}))
      case InactiveKitty => s.(inactive := WithoutImages(s.inactive, {v.id}));
    r.(timestamps := r.timestamps - {v.id}, removals := r.removals + [RemovalKey(v)])
  }

  lemma KeepPendingSnoc(pending: seq<GraphicData>, g: GraphicData, gone: set<nat>)
    ensures KeepPending(pending + [g], gone) == KeepPending(pending, gone) + (if g.id in gone then [] else [g])
  {
    assert (pending + [g])[..|pending|] == pending;
  }

  lemma {:induction false} KeepPendingTwice(pending: seq<GraphicData>, a: set<nat>, b: set<nat>)
    ensures KeepPending(KeepPending(pending, a), b) == KeepPending(pending, a + b)
  {
    if pending == [] {
    } else {
      var front, g := pending[..|pending| - 1], pending[|pending| - 1];
      KeepPendingTwice(front, a, b);
      KeepPendingSnoc(KeepPending(front, a), g, b);
      assert KeepPending(front, a) + [] == KeepPending(front, a);
    }
  }

  lemma {:induction false} KeepPendingNone(pending: seq<GraphicData>)
    ensures KeepPending(pending, {}) == pending
  {
    if pending == [] {
    } else {
      KeepPendingNone(pending[..|pending| - 1]);
    }
  }

  lemma WithoutTwice(t: Screen, a: set<nat>, b: set<nat>)
    ensures WithoutImages(WithoutImages(t, a), b) == WithoutImages(t, a + b)
  {
    assert t.images - a - b == t.images - (a + b);
  }

  lemma WithoutNone(t: Screen)
    ensures WithoutImages(t, {}) == t
  {
    assert t.images - {} == t.images;
  }

  lemma RemoveNone(s: Store)
    ensures RemoveVictims(s, []) == s
  {
    hide WithoutImages, KeepPending;
    KeepPendingNone(s.pending);
    WithoutNone(s.active);
    WithoutNone(s.inactive);
    assert Ids([], Pending) == {} && Ids([], ActiveKitty) == {} && Ids([], InactiveKitty) == {} && AllIds([]) == {};
    assert s.sizes - {} == s.sizes && s.timestamps - {} == s.timestamps;
    assert s.removals + RemovalKeys([]) == s.removals;
  }

  /** Removing the victims one by one is removing them all. */
  lemma RemoveNext(s: Store, victims: seq<Candidate>, v: Candidate)
    ensures RemoveOne(RemoveVictims(s, victims), v) == RemoveVictims(s, victims + [v])
  {
    hide WithoutImages, KeepPending, Ids, AllIds, RemovalKey;
    var more := victims + [v];
    IdsSnoc(victims, v, Pending);
    IdsSnoc(victims, v, ActiveKitty);
    IdsSnoc(victims, v, InactiveKitty);
    assert s.timestamps - AllIds(victims) - {v.id} == s.timestamps - AllIds(more);
    assert more[..|more| - 1] == victims;
    assert s.removals + RemovalKeys(victims) + [RemovalKey(v)] == s.removals + RemovalKeys(more);
    match v.source
    case Pending =>
      KeepPendingTwice(s.pending, Ids(victims, Pending), {v.id});
      assert s.sizes - Ids(victims, Pending) - {v.id} == s.sizes - Ids(more, Pending);
    case ActiveKitty => WithoutTwice(s.active, Ids(victims, ActiveKitty), {v.id});
    case InactiveKitty => WithoutTwice(s.inactive, Ids(victims, InactiveKitty), {v.id});
  }

  lemma ReleaseNext(s: Store, keys: seq<nat>, i: nat)
    requires i < |keys|
    ensures ReleaseKeys(s, keys[..i + 1]) == ReleaseKey(ReleaseKeys(s, keys[..i]), keys[i])
  {
    hide ReleaseKey;
    assert keys[..i + 1][..i] == keys[..i];
  }

  // ---------------------------------------------------------------- the object

  class Graphics {
    var kittyImages: map<nat, StoredImage>
    var kittyImageNumbers: map<nat, nat>
    var kittyPlacements: map<(nat, nat), KittyPlacement>
    var kittyVirtualPlacements: map<(nat, nat), KittyPlacement>
    var atlasPlacements: seq<nat>
    var atlasKeyRefs: map<nat, nat>
    var inactive: Screen
    var pending: seq<GraphicData>
    var lastId: nat
    var imageTimestamps: map<nat, nat>
    var graphicSizes: map<nat, nat>
    var totalBytes: nat
    var totalLimit: nat
    var textureOperations: seq<nat>

    function Active(): Screen
      reads this
    {
      Screen(kittyImages, kittyImageNumbers, kittyPlacements, kittyVirtualPlacements, atlasPlacements, atlasKeyRefs)
    }

    function View(): Store
      reads this
    {
      Store(Active(), inactive, pending, lastId, imageTimestamps, graphicSizes, totalBytes, totalLimit, textureOperations)
    }

    constructor (limit: nat)
      ensures Initial(View()) && totalLimit == limit && lastId == 0 && textureOperations == []
    {
      kittyImages, kittyImageNumbers, kittyPlacements, kittyVirtualPlacements := map[], map[], map[], map[];
      atlasPlacements, atlasKeyRefs := [], map[];
      inactive := EMPTY_SCREEN;
      pending, lastId, imageTimestamps, graphicSizes := [], 0, map[], map[];
      totalBytes, totalLimit, textureOperations := 0, limit, [];
    }

    /** Make room for `required` bytes. */
    method EvictImages(required: nat, used: set<nat>) returns (ok: bool, ghost victims: seq<Candidate>)
      requires PendingNoDup(pending)
      modifies this
      ensures Evict(old(View()), required, used, victims, ok, View())
    {
      victims := [];
      if totalBytes + required <= totalLimit {
        return true, victims;
      }
      var toFree := totalBytes + required - totalLimit;
      var candidates := CollectCandidates(View(), used);
      if candidates == [] {
        return false, victims;
      }
      candidates := SortCandidates(candidates);
      assert Scans(View(), required, used) by { assert IsCandidate(View(), used, candidates[0]); }

      assert IsQueue(View(), used, candidates);
      var evicted, freed := TakePrefix(toFree, candidates);

      RemoveAll(evicted);
      SweepPlacements();
      totalBytes := SatSub(totalBytes, freed);
      victims := evicted;
      ok := freed >= toFree;
    }

    /** The shortest prefix of the ordered candidates that frees enough. */
    static method TakePrefix(toFree: nat, candidates: seq<Candidate>) returns (evicted: seq<Candidate>, freed: nat)
      ensures evicted == TakeEnough(candidates, toFree) && freed == Bytes(evicted)
    {
      evicted, freed := [], 0;
      var n := 0;
      assert candidates[0..] == candidates;
      while n < |candidates| && freed < toFree
        invariant n <= |candidates| && evicted == candidates[..n] && freed == Bytes(evicted)
        invariant TakeEnough(candidates, toFree) == evicted + TakeEnough(candidates[n..], SatSub(toFree, freed))
      {
        assert candidates[n..][1..] == candidates[n + 1..];
        assert (evicted + [candidates[n]])[..n] == evicted;
        freed := freed + candidates[n].bytes;
        evicted := evicted + [candidates[n]];
        n := n + 1;
      }
    }

    method RemoveAll(evicted: seq<Candidate>)
      modifies this
      ensures View() == RemoveVictims(old(View()), evicted)
    {
      RemoveNone(View());
      hide RemoveOne, RemoveVictims;
      for i := 0 to |evicted|
        invariant View() == RemoveVictims(old(View()), evicted[..i])
      {
        RemoveNext(old(View()), evicted[..i], evicted[i]);
        assert evicted[..i + 1] == evicted[..i] + [evicted[i]];
        RemoveVictim(evicted[i]);
      }
      assert evicted[..|evicted|] == evicted;
    }

    method RemoveVictim(v: Candidate)
      modifies this
      ensures View() == RemoveOne(old(View()), v)
    {
      hide WithoutImages, KeepPending;
      match v.source {
        case Pending =>
          pending := KeepPending(pending, {v.id});
          graphicSizes := graphicSizes - {v.id};
        case ActiveKitty =>
          SetActive(WithoutImages(Active(), {v.id}));
        case InactiveKitty =>
          inactive := WithoutImages(inactive, {v.id});
      }
      imageTimestamps := imageTimestamps - {v.id};
      textureOperations := textureOperations + [RemovalKey(v)];
    }

    /** Drop placements whose image is gone, on both screens. */
    method SweepPlacements()
      modifies this
      ensures View() == old(View()).(active := Swept(old(Active())), inactive := Swept(old(inactive)))
    {
      SetActive(Swept(Active()));
      inactive := Swept(inactive);
    }

    method SetActive(t: Screen)
      modifies `kittyImages, `kittyImageNumbers, `kittyPlacements, `kittyVirtualPlacements, `atlasPlacements, `atlasKeyRefs
      ensures Active() == t && View() == old(View()).(active := t)
    {
      ghost var before := View();
      kittyImages, kittyImageNumbers := t.images, t.numbers;
      kittyPlacements, kittyVirtualPlacements := t.placements, t.virtualPlacements;
      atlasPlacements, atlasKeyRefs := t.atlasPlacements, t.atlasKeyRefs;
      assert Active() == t;
      assert View() == before.(active := Active());
    }

    method StoreKittyImage(id: nat, number: Option<nat>, data: GraphicData, now: nat) returns (ghost victims: seq<Candidate>)
      requires PendingNoDup(pending)
      modifies this
      ensures StoreImage(old(View()), id, number, data, now, victims, View())
    {
      hide Evict, Replaced;
      victims := [];
      var newBytes := |data.pixels|;
      var used := Overlaid(kittyPlacements) + {id};
      ghost var ok := true;
      if totalBytes + newBytes > totalLimit {
        var fits;
        fits, victims := EvictImages(newBytes, used);
        ok := fits;
      }
      ghost var mid := View();
      assert MakeRoom(old(View()), newBytes, used, victims, ok, mid);
      ReplaceImage(id, number, data, now);
    }

    /** Put an image under its id, giving back the bytes of the one it replaces. */
    method ReplaceImage(id: nat, number: Option<nat>, data: GraphicData, now: nat)
      modifies `kittyImages, `kittyImageNumbers, `totalBytes
      ensures View() == Replaced(old(View()), id, number, data, now)
    {
      if id in kittyImages {
        totalBytes := SatSub(totalBytes, |kittyImages[id].data.pixels|);
      }
      kittyImages := kittyImages[id := StoredImage(data, now)];
      totalBytes := totalBytes + |data.pixels|;
      if number.Some? {
        kittyImageNumbers := kittyImageNumbers[number.value := id];
      }
    }

    method TrackGraphic(id: nat, bytes: nat, now: nat)
      modifies `imageTimestamps, `graphicSizes, `totalBytes
      ensures View() == Tracked(old(View()), id, bytes, now)
    {
      imageTimestamps := imageTimestamps[id := now];
      graphicSizes := graphicSizes[id := bytes];
      totalBytes := totalBytes + bytes;
    }

    method UntrackGraphic(id: nat, bytes: nat)
      modifies this
      ensures View() == Untracked(old(View()), id, bytes)
    {
      imageTimestamps := imageTimestamps - {id};
      graphicSizes := graphicSizes - {id};
      totalBytes := SatSub(totalBytes, bytes);
    }

    method UntrackAtlasKeys(keys: seq<nat>)
      modifies this
      ensures View() == ReleaseKeys(old(View()), keys)
    {
      assert ReleaseKeys(View(), keys[..0]) == View();
      hide ReleaseKeys, ReleaseKey;
      for i := 0 to |keys|
        invariant View() == ReleaseKeys(old(View()), keys[..i])
      {
        ReleaseNext(old(View()), keys, i);
        UntrackAtlasKey(keys[i]);
      }
      assert keys[..|keys|] == keys;
    }

    method UntrackAtlasKey(key: nat)
      modifies `graphicSizes, `imageTimestamps, `totalBytes
      ensures View() == ReleaseKey(old(View()), key)
    {
      if key in atlasKeyRefs || key in inactive.atlasKeyRefs {
        return;
      }
      var id := SatSub(key, ATLAS_BASE);
      if id in graphicSizes {
        var bytes := graphicSizes[id];
        graphicSizes := graphicSizes - {id};
        imageTimestamps := imageTimestamps - {id};
        totalBytes := SatSub(totalBytes, bytes);
      }
    }

    method RecountAtlasKeys() returns (lost: seq<nat>)
      modifies this
      ensures RecountActive(old(View()), lost, View())
    {
      var refs;
      refs, lost := RecountKeys(atlasPlacements, atlasKeyRefs);
      atlasKeyRefs := refs;
      textureOperations := textureOperations + lost;
      UntrackAtlasKeys(lost);
    }

    method RecountInactiveAtlasKeys() returns (lost: seq<nat>)
      modifies this
      ensures RecountInactive(old(View()), lost, View())
    {
      var refs;
      refs, lost := RecountKeys(inactive.atlasPlacements, inactive.atlasKeyRefs);
      inactive := inactive.(atlasKeyRefs := refs);
      textureOperations := textureOperations + lost;
      UntrackAtlasKeys(lost);
    }

    static method RecountKeys(placements: seq<nat>, keyRefs: map<nat, nat>) returns (refs: map<nat, nat>, lost: seq<nat>)
      ensures refs == CountKeys(placements)
      ensures Enumerates(lost, keyRefs.Keys - refs.Keys)
    {
      refs := map[];
      for i := 0 to |placements|
        invariant refs == CountKeys(placements[..i])
      {
        assert placements[..i + 1][..i] == placements[..i];
        var key := placements[i];
        refs := refs[key := (if key in refs then refs[key] else 0) + 1];
      }
      assert placements[..|placements|] == placements;
      lost := [];
      var todo := keyRefs.Keys;
      while todo != {}
        invariant todo <= keyRefs.Keys && Enumerates(lost, keyRefs.Keys - refs.Keys - todo)
      {
        var key :| key in todo;
        todo := todo - {key};
        if key !in refs {
          lost := lost + [key];
        }
      }
    }

    method SwapKittyScreenState()
      modifies this
      ensures View() == Swapped(old(View()))
      ensures Active() == old(inactive) && inactive == old(Active())
    {
      var hidden := inactive;
      inactive := Active();
      SetActive(hidden);
    }

    method DeleteKittyImages(doomed: (nat, StoredImage) -> bool)
      modifies this
      ensures View() == Deleted(old(View()), set id | id in old(kittyImages) && doomed(id, old(kittyImages)[id]))
    {
      kittyImages := map id | id in kittyImages && !doomed(id, kittyImages[id]) :: kittyImages[id];
      kittyImageNumbers := map n | n in kittyImageNumbers && kittyImageNumbers[n] in kittyImages :: kittyImageNumbers[n];
      assert kittyImages == old(kittyImages) - set id | id in old(kittyImages) && doomed(id, old(kittyImages)[id]);
    }

    /** Full reset of both screens. */
    method ClearAllKittyState() returns (activeKeys: seq<nat>, inactiveKeys: seq<nat>)
      modifies this
      ensures Clear(old(View()), activeKeys, inactiveKeys, View())
    {
      ghost var s := View();
      hide Sum, Lengths, Enumerates;
      var inactiveBytes := TotalLength(inactive.images);
      totalBytes := SatSub(totalBytes, inactiveBytes);
      activeKeys := KeysOf(atlasKeyRefs);
      inactiveKeys := KeysOf(inactive.atlasKeyRefs);
      textureOperations := textureOperations + activeKeys + inactiveKeys;
      SetActive(EMPTY_SCREEN);
      assert Released(View()) == Released(s);
      hide Released;
      ReleaseUploaded();
      inactive := EMPTY_SCREEN;
    }

    /** Give back every tracked graphic that no longer waits for upload. */
    method ReleaseUploaded()
      modifies this
      ensures var s := old(View());
              View() == s.(sizes := s.sizes - Released(s).Keys, timestamps := s.timestamps - Released(s).Keys,
                           totalBytes := SatSub(s.totalBytes, Sum(Released(s))))
    {
      ghost var s := View();
      ghost var released := Released(s);
      ghost var given: set<nat> := {};
      ghost var freed: nat := 0;
      var todo := graphicSizes.Keys - PendingIds(View());
      assert released - {} == released && s.sizes - {} == s.sizes && s.timestamps - {} == s.timestamps;
      hide PendingIds, Sum, Released;
      while todo != {}
        invariant todo == released.Keys - given && given <= released.Keys
        invariant freed + Sum(released - given) == Sum(released)
        invariant View() == s.(sizes := s.sizes - given, timestamps := s.timestamps - given, totalBytes := SatSub(s.totalBytes, freed))
      {
        var id :| id in todo;
        todo := todo - {id};
        var bytes := graphicSizes[id];
        SumSplit(released - given, id);
        assert released - given - {id} == released - (given + {id});
        assert s.sizes - given - {id} == s.sizes - (given + {id});
        assert s.timestamps - given - {id} == s.timestamps - (given + {id});
        given := given + {id};
        UntrackGraphic(id, bytes);
        freed := freed + bytes;
      }
      assert released - given == map[] && given == released.Keys;
    }

    /** Total pixel bytes of a set of images, in whatever order the map is walked. */
    static method TotalLength(images: map<nat, StoredImage>) returns (total: nat)
      ensures total == ImageBytes(images)
    {
      total := 0;
      ghost var counted: set<nat> := {};
      var todo := images.Keys;
      assert Lengths(images) - {} == Lengths(images);
      while todo != {}
        invariant todo == images.Keys - counted && counted <= images.Keys
        invariant total + Sum(Lengths(images) - counted) == ImageBytes(images)
      {
        var id :| id in todo;
        todo := todo - {id};
        SumSplit(Lengths(images) - counted, id);
        assert Lengths(images) - counted - {id} == Lengths(images) - (counted + {id});
        counted := counted + {id};
        total := total + |images[id].data.pixels|;
      }
      assert Lengths(images) - counted == map[];
    }

    static method KeysOf(m: map<nat, nat>) returns (keys: seq<nat>)
      ensures Enumerates(keys, m.Keys)
    {
      keys := [];
      var todo := m.Keys;
      while todo != {}
        invariant todo <= m.Keys && Enumerates(keys, m.Keys - todo)
      {
        var key :| key in todo;
        todo := todo - {key};
        keys := keys + [key];
      }
    }

    /** Take the next id, track it, and record its placement after the clipped ones. */
    method PlaceGraphic(bytes: nat, now: nat, kept: seq<nat>)
      modifies `lastId, `imageTimestamps, `graphicSizes, `totalBytes, `atlasPlacements
      ensures View() == Placed(old(View()), bytes, now, kept)
    {
      lastId := lastId + 1;
      TrackGraphic(lastId, bytes, now);
      atlasPlacements := kept + [lastId + ATLAS_BASE];
    }

    /** The store's part of drawing a sixel/iTerm2 image; `kept` are the texture keys of the
        placements that are left once the image's rectangle is clipped out of them. */
    method InsertImage(pixels: seq<Byte>, now: nat, used: set<nat>, kept: seq<nat>)
      returns (ghost victims: seq<Candidate>, ghost lost: seq<nat>)
      requires PendingNoDup(pending)
      modifies this
      ensures InsertGraphic(old(View()), pixels, now, used, kept, victims, lost, View())
    {
      hide Evict, RecountActive, Placed;
      victims := [];
      ghost var ok := true;
      if totalBytes + |pixels| > totalLimit {
        var fits;
        fits, victims := EvictImages(|pixels|, used);
        ok := fits;
      }
      ghost var mid := View();
      assert MakeRoom(old(View()), |pixels|, used, victims, ok, mid);
      PlaceGraphic(|pixels|, now, kept);
      lost := RecountAtlasKeys();
      ghost var counted := View();
      pending := pending + [GraphicData(lastId, pixels)];
      assert View() == counted.(pending := counted.pending + [GraphicData(counted.lastId, pixels)]);
    }

    /** Hand the queues to the renderer. */
    method TakeQueues() returns (graphics: seq<GraphicData>, removals: seq<nat>)
      modifies this
      ensures graphics == old(pending) && removals == old(textureOperations)
      ensures View() == old(View()).(pending := [], removals := [])
    {
      graphics, removals := pending, textureOperations;
      pending, textureOperations := [], [];
    }
  }
}
