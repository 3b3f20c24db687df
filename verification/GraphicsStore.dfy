/** The terminal's image store as values: two screens of kitty images, the atlas graphics
    that wait for upload, and one byte budget over all of them
    (patches/rio-vt/src/ansi/graphics.rs).

    Each operation is a relation between the store before and after. Hash-map iteration
    order is left open: an operation that walks a map carries the order it happened to use. */
module GraphicsStore {
  import opened Basics

  /** Atlas texture keys live above every 32-bit kitty image id. */
  const ATLAS_BASE: nat := 0x1_0000_0000

  datatype GraphicData = GraphicData(id: nat, pixels: seq<Byte>)

  datatype StoredImage = StoredImage(data: GraphicData, transmissionTime: nat)

  datatype KittyPlacement = KittyPlacement(imageId: nat, placementId: nat)

  /** What each screen owns. `atlasPlacements` keeps only the texture key of each region. */
  datatype Screen = Screen(
    images: map<nat, StoredImage>,
    numbers: map<nat, nat>,
    placements: map<(nat, nat), KittyPlacement>,
    virtualPlacements: map<(nat, nat), KittyPlacement>,
    atlasPlacements: seq<nat>,
    atlasKeyRefs: map<nat, nat>)

  const EMPTY_SCREEN := Screen(map[], map[], map[], map[], [], map[])

  datatype Store = Store(
    active: Screen,
    inactive: Screen,
    pending: seq<GraphicData>,
    lastId: nat,
    timestamps: map<nat, nat>,
    sizes: map<nat, nat>,
    totalBytes: nat,
    totalLimit: nat,
    removals: seq<nat>)

  // ---------------------------------------------------------------- byte sums

  ghost function Sum(m: map<nat, nat>): nat
    decreases |m|
  {
    if m == map[] then 0
    else
      var k :| k in m;
      m[k] + Sum(m - {k})
  }

  lemma {:induction false} SumSplit(m: map<nat, nat>, k: nat)
    requires k in m
    ensures Sum(m) == m[k] + Sum(m - {k})
    decreases |m|
  {
    var j :| j in m && Sum(m) == m[j] + Sum(m - {j});
    if j == k {
    } else {
      SumSplit(m - {j}, k);
      SumSplit(m - {k}, j);
      assert m - {j} - {k} == m - {k} - {j};
    }
  }

  lemma SumInsert(m: map<nat, nat>, k: nat, v: nat)
    ensures Sum(m[k := v]) == Sum(m - {k}) + v
  {
    SumSplit(m[k := v], k);
    assert m[k := v] - {k} == m - {k};
  }

  lemma SumRemove(m: map<nat, nat>, k: nat)
    ensures Sum(m) == Sum(m - {k}) + (if k in m then m[k] else 0)
  {
    if k in m { SumSplit(m, k); } else { assert m - {k} == m; }
  }

  lemma {:induction false} SumDrop(m: map<nat, nat>, ks: set<nat>)
    ensures Sum(m - ks) <= Sum(m)
    decreases |ks|
  {
    if ks == {} {
      assert m - ks == m;
    } else {
      var k :| k in ks;
      SumDrop(m - {k}, ks - {k});
      assert m - {k} - (ks - {k}) == m - ks;
      SumRemove(m, k);
    }
  }

  /** Byte size of each image. */
  function Lengths(images: map<nat, StoredImage>): map<nat, nat> {
    map k | k in images :: |images[k].data.pixels|
  }

  ghost function ImageBytes(images: map<nat, StoredImage>): nat { Sum(Lengths(images)) }

  /** What the budget ought to hold: both screens' images and every tracked atlas graphic. */
  ghost function HeldBytes(s: Store): nat {
    ImageBytes(s.active.images) + ImageBytes(s.inactive.images) + Sum(s.sizes)
  }

  // ---------------------------------------------------------------- eviction

  datatype Source = Pending | ActiveKitty | InactiveKitty

  datatype Candidate = Candidate(id: nat, time: nat, used: bool, bytes: nat, source: Source)

  /** Lower goes first: inactive screen, then unused, then used. */
  function Tier(c: Candidate): nat {
    if c.source.InactiveKitty? then 0 else if c.used then 2 else 1
  }

  /** `a` must go before `b`: lower tier, or same tier and strictly older. */
  predicate Before(a: Candidate, b: Candidate) {
    Tier(a) < Tier(b) || (Tier(a) == Tier(b) && a.time < b.time)
  }

  /** An unused pending graphic that still has its timestamp. */
  predicate PendingCandidate(s: Store, used: set<nat>, c: Candidate) {
    && c.source.Pending? && !c.used && c.id !in used
    && c.id in s.timestamps && c.time == s.timestamps[c.id]
    && exists i :: 0 <= i < |s.pending| && s.pending[i].id == c.id && |s.pending[i].pixels| == c.bytes
  }

  predicate ImageCandidate(images: map<nat, StoredImage>, c: Candidate) {
    c.id in images && c.time == images[c.id].transmissionTime && c.bytes == |images[c.id].data.pixels|
  }

  predicate IsCandidate(s: Store, used: set<nat>, c: Candidate) {
    match c.source
    case Pending => PendingCandidate(s, used, c)
    case ActiveKitty => ImageCandidate(s.active.images, c) && c.used == (c.id in used)
    case InactiveKitty => ImageCandidate(s.inactive.images, c) && !c.used
  }

  function Bytes(cs: seq<Candidate>): nat {
    if cs == [] then 0 else Bytes(cs[..|cs| - 1]) + cs[|cs| - 1].bytes
  }

  ghost function Ids(cs: seq<Candidate>, source: Source): set<nat> {
    set c | c in cs && c.source == source :: c.id
  }

  ghost function AllIds(cs: seq<Candidate>): set<nat> {
    set c | c in cs :: c.id
  }

  lemma IdsSnoc(victims: seq<Candidate>, v: Candidate, source: Source)
    ensures v.source == source ==> Ids(victims + [v], source) == Ids(victims, source) + {v.id}
    ensures v.source != source ==> Ids(victims + [v], source) == Ids(victims, source)
    ensures AllIds(victims + [v]) == AllIds(victims) + {v.id}
  {}

  /** The texture key queued for removal when a candidate goes. */
  function RemovalKey(c: Candidate): nat {
    if c.source.Pending? then c.id + ATLAS_BASE else c.id
  }

  function RemovalKeys(cs: seq<Candidate>): seq<nat> {
    if cs == [] then [] else RemovalKeys(cs[..|cs| - 1]) + [RemovalKey(cs[|cs| - 1])]
  }

  predicate InOrder(cs: seq<Candidate>) {
    forall i, j :: 0 <= i < j < |cs| ==> !Before(cs[j], cs[i])
  }

  /** All candidates, each once, in an order the sort may leave them in. */
  ghost predicate IsQueue(s: Store, used: set<nat>, queue: seq<Candidate>) {
    NoDup(queue) && InOrder(queue) && forall c :: c in queue <==> IsCandidate(s, used, c)
  }

  /** Candidates are taken from the front until enough is freed. */
  function TakeEnough(queue: seq<Candidate>, toFree: nat): seq<Candidate> {
    if queue == [] || toFree == 0 then []
    else [queue[0]] + TakeEnough(queue[1..], SatSub(toFree, queue[0].bytes))
  }

  ghost predicate Chosen(s: Store, used: set<nat>, toFree: nat, victims: seq<Candidate>) {
    exists queue :: IsQueue(s, used, queue) && victims == TakeEnough(queue, toFree)
  }

  function KeepPending(pending: seq<GraphicData>, gone: set<nat>): seq<GraphicData> {
    if pending == [] then []
    else
      var g := pending[|pending| - 1];
      KeepPending(pending[..|pending| - 1], gone) + (if g.id in gone then [] else [g])
  }

  /** A screen without the images `gone`, before its placements are swept. */
  function WithoutImages(t: Screen, gone: set<nat>): Screen {
    t.(images := t.images - gone,
       numbers := map n | n in t.numbers && t.numbers[n] !in gone :: t.numbers[n])
  }

  /** Placements whose image is gone from this screen are dropped. */
  function Swept(t: Screen): Screen {
    t.(placements := map k | k in t.placements && t.placements[k].imageId in t.images :: t.placements[k])
  }

  ghost function RemoveVictims(s: Store, victims: seq<Candidate>): Store {
    s.(pending := KeepPending(s.pending, Ids(victims, Pending)),
       sizes := s.sizes - Ids(victims, Pending),
       timestamps := s.timestamps - AllIds(victims),
       active := WithoutImages(s.active, Ids(victims, ActiveKitty)),
       inactive := WithoutImages(s.inactive, Ids(victims, InactiveKitty)),
       removals := s.removals + RemovalKeys(victims))
  }

  ghost function Evicted(s: Store, victims: seq<Candidate>): Store {
    var r := RemoveVictims(s, victims);
    r.(active := Swept(r.active), inactive := Swept(r.inactive),
       totalBytes := SatSub(s.totalBytes, Bytes(victims)))
  }

  ghost predicate HasCandidate(s: Store, used: set<nat>) {
    exists c :: IsCandidate(s, used, c)
  }

  /** The scan ran: over budget, and something could be evicted. */
  ghost predicate Scans(s: Store, required: nat, used: set<nat>) {
    s.totalBytes + required > s.totalLimit && HasCandidate(s, used)
  }

  ghost predicate Evict(s: Store, required: nat, used: set<nat>, victims: seq<Candidate>, ok: bool, s': Store) {
    if Scans(s, required, used) then
      var toFree := s.totalBytes + required - s.totalLimit;
      && Chosen(s, used, toFree, victims)
      && s' == Evicted(s, victims)
      && ok == (Bytes(victims) >= toFree)
    else
      victims == [] && s' == s && ok == (s.totalBytes + required <= s.totalLimit)
  }

  // ---------------------------------------------------------------- the other operations

  function Overlaid(placements: map<(nat, nat), KittyPlacement>): set<nat> {
    set k | k in placements :: placements[k].imageId
  }

  /** Storing an image: make room if over budget, then replace any image of the same id. */
  ghost predicate StoreImage(s: Store, id: nat, number: Option<nat>, data: GraphicData, now: nat,
                             victims: seq<Candidate>, s': Store)
  {
    exists mid, ok ::
      && MakeRoom(s, |data.pixels|, Overlaid(s.active.placements) + {id}, victims, ok, mid)
      && s' == Replaced(mid, id, number, data, now)
  }

  ghost predicate MakeRoom(s: Store, required: nat, used: set<nat>, victims: seq<Candidate>, ok: bool, s': Store) {
    if s.totalBytes + required > s.totalLimit then Evict(s, required, used, victims, ok, s')
    else victims == [] && s' == s
  }

  function Replaced(s: Store, id: nat, number: Option<nat>, data: GraphicData, now: nat): Store {
    var images := s.active.images;
    var released := if id in images then |images[id].data.pixels| else 0;
    var numbers := if number.Some? then s.active.numbers[number.value := id] else s.active.numbers;
    s.(active := s.active.(images := images[id := StoredImage(data, now)], numbers := numbers),
       totalBytes := SatSub(s.totalBytes, released) + |data.pixels|)
  }

  function Tracked(s: Store, id: nat, bytes: nat, now: nat): Store {
    s.(timestamps := s.timestamps[id := now], sizes := s.sizes[id := bytes], totalBytes := s.totalBytes + bytes)
  }

  function Untracked(s: Store, id: nat, bytes: nat): Store {
    s.(timestamps := s.timestamps - {id}, sizes := s.sizes - {id}, totalBytes := SatSub(s.totalBytes, bytes))
  }

  /** How many placements show each texture key. */
  function CountKeys(placements: seq<nat>): map<nat, nat> {
    if placements == [] then map[]
    else
      var refs, key := CountKeys(placements[..|placements| - 1]), placements[|placements| - 1];
      refs[key := (if key in refs then refs[key] else 0) + 1]
  }

  /** Give back the bytes of one released key, unless a screen still shows it. */
  function ReleaseKey(s: Store, key: nat): Store {
    var id := SatSub(key, ATLAS_BASE);
    if key in s.active.atlasKeyRefs || key in s.inactive.atlasKeyRefs || id !in s.sizes then s
    else Untracked(s, id, s.sizes[id])
  }

  function ReleaseKeys(s: Store, keys: seq<nat>): Store {
    if keys == [] then s else ReleaseKey(ReleaseKeys(s, keys[..|keys| - 1]), keys[|keys| - 1])
  }

  function Recounted(t: Screen): Screen {
    t.(atlasKeyRefs := CountKeys(t.atlasPlacements))
  }

  /** The keys that lost their last placement on a screen. */
  function LostKeys(t: Screen): set<nat> {
    t.atlasKeyRefs.Keys - CountKeys(t.atlasPlacements).Keys
  }

  predicate RecountActive(s: Store, lost: seq<nat>, s': Store) {
    && Enumerates(lost, LostKeys(s.active))
    && s' == ReleaseKeys(s.(active := Recounted(s.active), removals := s.removals + lost), lost)
  }

  predicate RecountInactive(s: Store, lost: seq<nat>, s': Store) {
    && Enumerates(lost, LostKeys(s.inactive))
    && s' == ReleaseKeys(s.(inactive := Recounted(s.inactive), removals := s.removals + lost), lost)
  }

  function Swapped(s: Store): Store {
    s.(active := s.inactive, inactive := s.active)
  }

  function PendingIds(s: Store): set<nat> {
    set g | g in s.pending :: g.id
  }

  /** Atlas graphics a full reset gives back: those no longer waiting for upload. */
  ghost function Released(s: Store): map<nat, nat> {
    s.sizes - PendingIds(s)
  }

  /** Full reset. The active screen's image bytes are not given back. */
  ghost predicate Clear(s: Store, activeKeys: seq<nat>, inactiveKeys: seq<nat>, s': Store) {
    && Enumerates(activeKeys, s.active.atlasKeyRefs.Keys)
    && Enumerates(inactiveKeys, s.inactive.atlasKeyRefs.Keys)
    && s' == s.(active := EMPTY_SCREEN, inactive := EMPTY_SCREEN,
                sizes := s.sizes - Released(s).Keys,
                timestamps := s.timestamps - Released(s).Keys,
                totalBytes := SatSub(s.totalBytes, ImageBytes(s.inactive.images) + Sum(Released(s))),
                removals := s.removals + activeKeys + inactiveKeys)
  }

  /** Deleting images of the active screen. Their bytes are not given back. */
  function Deleted(s: Store, gone: set<nat>): Store {
    var images := s.active.images - gone;
    s.(active := s.active.(images := images,
                           numbers := map n | n in s.active.numbers && s.active.numbers[n] in images :: s.active.numbers[n]))
  }

  /** A sixel/iTerm2 image: make room, take the next id, track it, record its placement after
      clipping what it covers (`kept` are the keys of the clipped placements), queue its pixels. */
  ghost predicate InsertGraphic(s: Store, pixels: seq<Byte>, now: nat, used: set<nat>, kept: seq<nat>,
                                victims: seq<Candidate>, lost: seq<nat>, s': Store)
  {
    exists mid, ok, counted ::
      && MakeRoom(s, |pixels|, used, victims, ok, mid)
      && RecountActive(Placed(mid, |pixels|, now, kept), lost, counted)
      && s' == counted.(pending := counted.pending + [GraphicData(counted.lastId, pixels)])
  }

  function Placed(s: Store, bytes: nat, now: nat, kept: seq<nat>): Store {
    var t := Tracked(s.(lastId := s.lastId + 1), s.lastId + 1, bytes, now);
    t.(active := t.active.(atlasPlacements := kept + [s.lastId + 1 + ATLAS_BASE]))
  }

  // ---------------------------------------------------------------- steps and runs

  datatype Op =
    | OpStore(id: nat, number: Option<nat>, data: GraphicData, now: nat, victims: seq<Candidate>)
    | OpEvict(required: nat, used: set<nat>, victims: seq<Candidate>, ok: bool)
    | OpInsert(pixels: seq<Byte>, now: nat, used: set<nat>, kept: seq<nat>, victims: seq<Candidate>, lost: seq<nat>)
    | OpTrack(bytes: nat, now: nat)
    | OpUntrack(id: nat)
    | OpRecountActive(lost: seq<nat>)
    | OpRecountInactive(lost: seq<nat>)
    | OpReleaseKeys(keys: seq<nat>)
    | OpSwap
    | OpTakeQueues
    | OpRearrange(active: Screen, inactive: Screen)
    | OpDelete(gone: set<nat>)
    | OpClear(activeKeys: seq<nat>, inactiveKeys: seq<nat>)

  /** Any change to placements: cursor output, scrolling, placing, deleting placements. */
  predicate OnlyPlacementsDiffer(t: Screen, t': Screen) {
    t' == t.(placements := t'.placements, virtualPlacements := t'.virtualPlacements,
             atlasPlacements := t'.atlasPlacements)
  }

  /** One operation. Tracking takes the next id; untracking passes the tracked size, as every
      caller does. */
  ghost predicate Step(s: Store, op: Op, s': Store) {
    match op
    case OpStore(id, number, data, now, victims) => StoreImage(s, id, number, data, now, victims, s')
    case OpEvict(required, used, victims, ok) => Evict(s, required, used, victims, ok, s')
    case OpInsert(pixels, now, used, kept, victims, lost) => InsertGraphic(s, pixels, now, used, kept, victims, lost, s')
    case OpTrack(bytes, now) => s' == Tracked(s.(lastId := s.lastId + 1), s.lastId + 1, bytes, now)
    case OpUntrack(id) => id in s.sizes && s' == Untracked(s, id, s.sizes[id])
    case OpRecountActive(lost) => RecountActive(s, lost, s')
    case OpRecountInactive(lost) => RecountInactive(s, lost, s')
    case OpReleaseKeys(keys) => s' == ReleaseKeys(s, keys)
    case OpSwap => s' == Swapped(s)
    case OpTakeQueues => s' == s.(pending := [], removals := [])
    case OpRearrange(active, inactive) =>
      && OnlyPlacementsDiffer(s.active, active) && OnlyPlacementsDiffer(s.inactive, inactive)
      && s' == s.(active := active, inactive := inactive)
    case OpDelete(gone) => s' == Deleted(s, gone)
    case OpClear(activeKeys, inactiveKeys) => Clear(s, activeKeys, inactiveKeys, s')
  }

  /** The two operations that drop images without giving their bytes back. */
  predicate Leaks(op: Op) { op.OpDelete? || op.OpClear? }

  predicate Initial(s: Store) {
    && s.active == EMPTY_SCREEN && s.inactive == EMPTY_SCREEN && s.pending == []
    && s.timestamps == map[] && s.sizes == map[] && s.totalBytes == 0
  }

  ghost predicate IsRun(states: seq<Store>, ops: seq<Op>) {
    && |states| == |ops| + 1
    && Initial(states[0])
    && forall i :: 0 <= i < |ops| ==> Step(states[i], ops[i], states[i + 1])
  }

  // ---------------------------------------------------------------- invariants

  predicate PendingNoDup(pending: seq<GraphicData>) {
    forall i, j :: 0 <= i < j < |pending| ==> pending[i].id != pending[j].id
  }

  /** Ids are never reused, a timestamp implies a tracked size, and a tracked pending graphic
      is tracked at its own size. */
  ghost predicate Consistent(s: Store) {
    && s.timestamps.Keys <= s.sizes.Keys
    && PendingNoDup(s.pending)
    && (forall g :: g in s.pending ==> g.id <= s.lastId && (g.id in s.sizes ==> s.sizes[g.id] == |g.pixels|))
    && (forall id :: id in s.sizes ==> id <= s.lastId)
  }

  /** The budget never undercounts. */
  ghost predicate Covered(s: Store) { s.totalBytes >= HeldBytes(s) }

  ghost predicate Exact(s: Store) { s.totalBytes == HeldBytes(s) }

  /** Bytes on the books that nothing holds. */
  ghost function Surplus(s: Store): int { s.totalBytes - HeldBytes(s) }
}
