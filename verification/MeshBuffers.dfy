/** The index-buffer space manager of the renderer: loading a mesh carves a piece out of
    some buffer's free list, unloading gives it back. */
module MeshBuffers {
  import opened Intervals
  import opened Options
  import opened IntervalUnions

  /** An index buffer: its size and the list of its free pieces. */
  datatype Buffer = Buffer(byteSize: nat, free: seq<Interval>)

  /** A loaded mesh: the buffer its indices are in and the bytes they take. */
  datatype Mesh = Mesh(indexBuffer: nat, indexSpace: Interval)

  /** `registry` is the set of buffers that loading searches; `buffers` holds them all. */
  datatype Store = Store(buffers: map<nat, Buffer>, registry: set<nat>, meshes: map<nat, Mesh>)

  datatype Outcome = Done(store: Store) | Refused | Undefined

  const BYTES_PER_INDEX := 4

  function ByteSpace(begin: real, bytes: nat): Interval {
    Interval(begin, begin + bytes as real, true, false)
  }

  // ----- The search for a free piece

  predicate Fits(mem: Interval, bytes: nat) {
    mem.Size() >= bytes as real && mem.firstIncluded && !mem.lastIncluded
  }

  /** The first free piece that is large enough. */
  function FirstFit(free: seq<Interval>, bytes: nat): (r: Option<Interval>)
    ensures r.Some? ==> r.value in free && Fits(r.value, bytes)
    ensures r.None? ==> forall i :: 0 <= i < |free| ==> !Fits(free[i], bytes)
  {
    if free == [] then None
    else if Fits(free[0], bytes) then Some(free[0])
    else FirstFit(free[1..], bytes)
  }

  /** What the search finds in one buffer. */
  function FitIn(buffers: map<nat, Buffer>, b: nat, bytes: nat): Option<Interval> {
    if b in buffers then FirstFit(buffers[b].free, bytes) else None
  }

  /** The space chosen for a mesh: the search stops at the first fitting piece of a buffer
      but goes on to the next buffer, so the last buffer that has one wins. Nothing is
      chosen only if nothing fits anywhere. */
  function Chosen(buffers: map<nat, Buffer>, order: seq<nat>, bytes: nat): (r: Option<Mesh>)
    ensures r.Some? ==>
              var fit := FitIn(buffers, r.value.indexBuffer, bytes);
              r.value.indexBuffer in order && r.value.indexBuffer in buffers &&
              fit.Some? && r.value.indexSpace == ByteSpace(fit.value.begin, bytes)
    ensures r.None? ==> forall k :: 0 <= k < |order| ==> FitIn(buffers, order[k], bytes).None?
  {
    if order == [] then None
    else
      var b := order[|order| - 1];
      var fit := FitIn(buffers, b, bytes);
      if fit.Some? then Some(Mesh(b, ByteSpace(fit.value.begin, bytes)))
      else Chosen(buffers, order[..|order| - 1], bytes)
  }

  // ----- Loading and unloading

  function NewBuffer(byteSize: nat): Buffer {
    Buffer(byteSize, if byteSize == 0 then [] else [Interval(0.0, byteSize as real, true, false)])
  }

  /** Everything a load depends on beside the store: the mesh's identity and index count,
      the iteration order of the buffer set, the configured buffer size, the buffer that
      the device creates if one is needed (`None` when it refuses), and whether one of the
      later steps fails (vertex buffer, mapping). */
  datatype Request = Request(id: nat, indexCount: nat, order: seq<nat>, configuredSize: nat,
                             created: Option<nat>, laterStepFails: bool)

  function LargerOf(a: nat, b: nat): nat { if a < b then b else a }

  /** The buffer that a load goes to, if the device does not refuse a new one. */
  function Target(st: Store, q: Request): Option<nat> {
    var chosen := Chosen(st.buffers, q.order, q.indexCount * BYTES_PER_INDEX);
    if chosen.Some? then Some(chosen.value.indexBuffer) else q.created
  }

  /** Some mesh is in buffer `b`. */
  predicate InUse(st: Store, b: nat) {
    exists m :: m in st.meshes && st.meshes[m].indexBuffer == b
  }

  /** A mesh has let go of buffer `b`. Only meshes own buffers, the registry does not, so the
      last one to let go destroys the buffer, whose guard takes it out of the registry. */
  function Released(st: Store, b: nat): Store {
    if InUse(st, b) then st else Store(st.buffers - {b}, st.registry - {b}, st.meshes)
  }

  /** The store after mesh `id` of `st` was overwritten, which let go of its old buffer. */
  function Overwritten(st: Store, placed: Store, id: nat): Store {
    if id in st.meshes then Released(placed, st.meshes[id].indexBuffer) else placed
  }

  function Load(st: Store, q: Request): Outcome {
    var bytes := q.indexCount * BYTES_PER_INDEX;
    var chosen := Chosen(st.buffers, q.order, bytes);
    if chosen.None? && q.created.None? then Refused
    else if q.laterStepFails then Refused
    else
      var b := if chosen.Some? then chosen.value.indexBuffer else q.created.value;
      var buffer := if chosen.Some? then st.buffers[b]
                    else NewBuffer(LargerOf(bytes, q.configuredSize * BYTES_PER_INDEX));
      var space := if chosen.Some? then chosen.value.indexSpace else ByteSpace(0.0, bytes);
      match Subtracted(buffer.free, space)
      case None => Undefined
      case Some(free) =>
        var placed := Store(st.buffers[b := buffer.(free := free)],
                            if chosen.Some? then st.registry else st.registry + {b},
                            st.meshes[q.id := Mesh(b, space)]);
        Done(Overwritten(st, placed, q.id))
  }

  /** The size test of an unload. */
  predicate WhollyFree(buffer: Buffer) {
    |buffer.free| == 1 && buffer.free[0].Size() == buffer.byteSize as real
  }

  /** The buffer of a mesh with the mesh's space given back. */
  function Returned(st: Store, id: nat): Buffer
    requires id in st.meshes && st.meshes[id].indexBuffer in st.buffers
  {
    var buffer := st.buffers[st.meshes[id].indexBuffer];
    buffer.(free := Added(buffer.free, st.meshes[id].indexSpace))
  }

  /** The store after the space was given back and before the buffer was let go. */
  function Without(st: Store, id: nat): Store
    requires id in st.meshes && st.meshes[id].indexBuffer in st.buffers
  {
    var b, buffer := st.meshes[id].indexBuffer, Returned(st, id);
    Store(st.buffers[b := buffer], if WhollyFree(buffer) then st.registry - {b} else st.registry, st.meshes - {id})
  }

  function Unload(st: Store, id: nat): Outcome {
    if id !in st.meshes || st.meshes[id].indexBuffer !in st.buffers then Refused
    else Done(Released(Without(st, id), st.meshes[id].indexBuffer))
  }

  // ----- Where a mesh goes

  /** Piece `k` is the first free piece that is large enough. */
  ghost predicate FitsFirst(free: seq<Interval>, k: nat, bytes: nat) {
    k < |free| && Fits(free[k], bytes) && forall i :: 0 <= i < k ==> !Fits(free[i], bytes)
  }

  ghost predicate HasRoom(buffers: map<nat, Buffer>, b: nat, bytes: nat) {
    b in buffers && exists k :: 0 <= k < |buffers[b].free| && Fits(buffers[b].free[k], bytes)
  }

  /** The mesh takes the front of the first free piece that fits in buffer `order[n]`, the last
      listed buffer with room. */
  ghost predicate GoesTo(buffers: map<nat, Buffer>, order: seq<nat>, bytes: nat, n: nat, k: nat, mesh: Mesh) {
    && n < |order| && order[n] in buffers && FitsFirst(buffers[order[n]].free, k, bytes)
    && (forall i :: n < i < |order| ==> !HasRoom(buffers, order[i], bytes))
    && mesh == Mesh(order[n], ByteSpace(buffers[order[n]].free[k].begin, bytes))
  }

  lemma {:induction false} FirstFitIsFirst(free: seq<Interval>, bytes: nat) returns (k: nat)
    ensures FirstFit(free, bytes).Some? ==> FitsFirst(free, k, bytes) && free[k] == FirstFit(free, bytes).value
  {
    k := 0;
    if free == [] || Fits(free[0], bytes) {
    } else {
      var rest := FirstFitIsFirst(free[1..], bytes);
      k := rest + 1;
    }
  }

  lemma {:induction false} ChosenIsLast(buffers: map<nat, Buffer>, order: seq<nat>, bytes: nat) returns (n: nat, k: nat)
    ensures var chosen := Chosen(buffers, order, bytes);
            if chosen.Some? then GoesTo(buffers, order, bytes, n, k, chosen.value)
            else forall i :: 0 <= i < |order| ==> !HasRoom(buffers, order[i], bytes)
  {
    n, k := 0, 0;
    if order == [] {
    } else {
      var last := |order| - 1;
      if FitIn(buffers, order[last], bytes).Some? {
        n := last;
        k := FirstFitIsFirst(buffers[order[last]].free, bytes);
      } else {
        n, k := ChosenIsLast(buffers, order[..last], bytes);
      }
    }
  }

  ghost predicate IsLarger(r: nat, a: nat, b: nat) { r >= a && r >= b && (r == a || r == b) }

  lemma LoadedStays(st: Store, q: Request)
    requires Load(st, q).Done?
    ensures var bytes, after := q.indexCount * BYTES_PER_INDEX, Load(st, q).store;
            var chosen := Chosen(st.buffers, q.order, bytes);
            && q.id in after.meshes && (chosen.Some? || q.created.Some?)
            && if chosen.Some? then after.meshes[q.id] == chosen.value
               else
                 && after.meshes[q.id] == Mesh(q.created.value, ByteSpace(0.0, bytes))
                 && q.created.value in after.buffers
                 && after.buffers[q.created.value].byteSize == LargerOf(bytes, q.configuredSize * BYTES_PER_INDEX)
  {
    var bytes := q.indexCount * BYTES_PER_INDEX;
    var chosen := Chosen(st.buffers, q.order, bytes);
    var b := if chosen.Some? then chosen.value.indexBuffer else q.created.value;
    var buffer := if chosen.Some? then st.buffers[b]
                  else NewBuffer(LargerOf(bytes, q.configuredSize * BYTES_PER_INDEX));
    var space := if chosen.Some? then chosen.value.indexSpace else ByteSpace(0.0, bytes);
    var placed := Store(st.buffers[b := buffer.(free := Subtracted(buffer.free, space).value)],
                        if chosen.Some? then st.registry else st.registry + {b},
                        st.meshes[q.id := Mesh(b, space)]);
    assert placed.meshes[q.id].indexBuffer == b;
    assert InUse(placed, b);
  }

  /** A load is refused exactly when a later step fails, or no listed buffer has room and the
      device refuses a new one. Otherwise the mesh goes to the last listed buffer with room, or,
      if none has any, to the front of a new buffer that is as large as the mesh and the
      configured size demand. */
  lemma LoadGoesTo(st: Store, q: Request) returns (n: nat, k: nat)
    ensures var bytes := q.indexCount * BYTES_PER_INDEX;
            var room := exists i :: 0 <= i < |q.order| && HasRoom(st.buffers, q.order[i], bytes);
            && (Load(st, q).Refused? <==> q.laterStepFails || (!room && q.created.None?))
            && (Load(st, q).Done? ==>
                  var after := Load(st, q).store;
                  && q.id in after.meshes
                  && if room then GoesTo(st.buffers, q.order, bytes, n, k, after.meshes[q.id])
                     else
                       && q.created.Some? && after.meshes[q.id] == Mesh(q.created.value, ByteSpace(0.0, bytes))
                       && q.created.value in after.buffers
                       && IsLarger(after.buffers[q.created.value].byteSize, bytes,
                                   q.configuredSize * BYTES_PER_INDEX))
  {
    n, k := ChosenIsLast(st.buffers, q.order, q.indexCount * BYTES_PER_INDEX);
    if Load(st, q).Done? { LoadedStays(st, q); }
  }

  // ----- What every run keeps

  predicate Aligned(x: real) { x == x.Floor as real && x.Floor % BYTES_PER_INDEX == 0 }

  predicate HalfOpen(a: Interval) { a.firstIncluded && !a.lastIncluded && a.begin <= a.end }

  /** `a` lies on one side of `b`; an empty remnant strictly inside `b` does not. */
  predicate Clear(a: Interval, b: Interval) { a.end <= b.begin || b.end <= a.begin }

  predicate Piece(a: Interval, byteSize: nat) {
    && HalfOpen(a) && 0.0 <= a.begin && a.end <= byteSize as real
    && Aligned(a.begin) && Aligned(a.end)
  }

  ghost predicate GoodFree(buffer: Buffer) {
    Spaced(buffer.free) && forall i :: 0 <= i < |buffer.free| ==> Piece(buffer.free[i], buffer.byteSize)
  }

  ghost predicate LiveAt(st: Store, b: nat, x: real) {
    exists m :: m in st.meshes && st.meshes[m].indexBuffer == b && st.meshes[m].indexSpace.Contains(x)
  }

  /** Every live space is a non-empty, aligned piece of a registered buffer. */
  ghost predicate GoodSpaces(st: Store) {
    forall m :: m in st.meshes ==>
      var mesh := st.meshes[m];
      && mesh.indexBuffer in st.registry && mesh.indexBuffer in st.buffers
      && Piece(mesh.indexSpace, st.buffers[mesh.indexBuffer].byteSize)
      && mesh.indexSpace.begin < mesh.indexSpace.end
  }

  /** Live spaces of one buffer are pairwise disjoint. */
  ghost predicate SpacesDisjoint(st: Store) {
    forall m, n :: m in st.meshes && n in st.meshes && m != n &&
                   st.meshes[m].indexBuffer == st.meshes[n].indexBuffer ==>
      Clear(st.meshes[m].indexSpace, st.meshes[n].indexSpace)
  }

  /** No stored element of a free list, empty remnants included, lies inside a live space. */
  ghost predicate FreeClearOfLive(st: Store) {
    forall m, a :: m in st.meshes && st.meshes[m].indexBuffer in st.buffers &&
                   a in st.buffers[st.meshes[m].indexBuffer].free ==>
      Clear(a, st.meshes[m].indexSpace)
  }

  /** Every byte of a registered buffer is free or live. */
  ghost predicate NothingLost(st: Store) {
    forall b, x: real :: b in st.registry && b in st.buffers && 0.0 <= x < st.buffers[b].byteSize as real ==>
      InUnion(st.buffers[b].free, x) || LiveAt(st, b, x)
  }

  /** Nothing is handed out twice. */
  ghost predicate Separate(st: Store) {
    && (forall b :: b in st.registry ==> b in st.buffers && GoodFree(st.buffers[b]))
    && GoodSpaces(st) && SpacesDisjoint(st) && FreeClearOfLive(st)
  }

  /** Buffer `b` exists and is registered just if it is in use. */
  ghost predicate KeptIfUsed(st: Store, b: nat) {
    (b in st.registry <==> InUse(st, b)) && (b in st.buffers <==> InUse(st, b))
  }

  /** ... and the buffers are those in use, all of them registered. */
  ghost predicate Sound(st: Store) {
    Separate(st) && forall b :: KeptIfUsed(st, b)
  }

  /** ... and nothing is lost: every byte is accounted for. */
  ghost predicate Good(st: Store) {
    Sound(st) && NothingLost(st)
  }

  /** What surrounds a load: the order lists the registered buffers, and a created buffer is
      a new one. */
  ghost predicate Arranged(st: Store, q: Request) {
    (forall b :: b in q.order <==> b in st.registry) && (q.created.Some? ==> q.created.value !in st.buffers)
  }

  /** ... and the mesh has at least one index. */
  ghost predicate WellPosed(st: Store, q: Request) { Arranged(st, q) && q.indexCount > 0 }

  // ----- One free list

  lemma AlignedPlus(x: real, bytes: nat)
    requires Aligned(x) && bytes % BYTES_PER_INDEX == 0
    ensures Aligned(x + bytes as real)
  {
    assert x + bytes as real == (x.Floor + bytes) as real;
  }

  ghost predicate ClearOfAll(free: seq<Interval>, m: Interval) {
    forall a :: a in free ==> Clear(a, m)
  }

  /** Carving the front of a free piece: the subtraction is defined, keeps the list good,
      and removes exactly the bytes of the space. */
  lemma Carve(buffer: Buffer, mem: Interval, bytes: nat)
    requires GoodFree(buffer) && mem in buffer.free && Fits(mem, bytes)
    requires 0 < bytes && bytes % BYTES_PER_INDEX == 0
    ensures var space := ByteSpace(mem.begin, bytes);
            && Piece(space, buffer.byteSize) && space.begin < space.end && space.end <= mem.end
            && Subtracted(buffer.free, space).Some?
            && var free := Subtracted(buffer.free, space).value;
            && GoodFree(buffer.(free := free)) && ClearOfAll(free, space)
            && (forall x :: InUnion(free, x) <==> InUnion(buffer.free, x) && !space.Contains(x))
            && (forall a :: a in free ==> a in buffer.free || (mem.begin <= a.begin && a.end <= mem.end))
  {
    AlignedPlus(mem.begin, bytes);
    var k :| 0 <= k < |buffer.free| && buffer.free[k] == mem;
    CarvedInside(buffer, k, ByteSpace(mem.begin, bytes));
  }

  lemma CarvedInside(buffer: Buffer, k: nat, space: Interval)
    requires GoodFree(buffer) && k < |buffer.free|
    requires Piece(space, buffer.byteSize) && space.begin < space.end
    requires var mem := buffer.free[k]; space.begin == mem.begin && space.end <= mem.end
    ensures Subtracted(buffer.free, space).Some?
    ensures var free, mem := Subtracted(buffer.free, space).value, buffer.free[k];
            && GoodFree(buffer.(free := free)) && ClearOfAll(free, space)
            && (forall x :: InUnion(free, x) <==> InUnion(buffer.free, x) && !space.Contains(x))
            && (forall a :: a in free ==> a in buffer.free || (mem.begin <= a.begin && a.end <= mem.end))
  {
    SubtractedInside(buffer.free, space, k);
    CarvedElements(buffer, k, space);
    var free := Subtracted(buffer.free, space).value;
    assert forall i :: 0 <= i < |free| ==> free[i] in free;
  }

  lemma CarvedElements(buffer: Buffer, k: nat, space: Interval)
    requires GoodFree(buffer) && k < |buffer.free|
    requires Piece(space, buffer.byteSize) && space.begin < space.end
    requires var mem := buffer.free[k]; space.begin == mem.begin && space.end <= mem.end
    ensures var mem := buffer.free[k];
            forall a :: a in buffer.free[..k] + Pieces(mem, mem, space) + buffer.free[k + 1..] ==>
              Clear(a, space) && Piece(a, buffer.byteSize) &&
              (a in buffer.free || (mem.begin <= a.begin && a.end <= mem.end))
  {
    var s, mem := buffer.free, buffer.free[k];
    forall a | a in s[..k] + Pieces(mem, mem, space) + s[k + 1..]
      ensures Clear(a, space) && Piece(a, buffer.byteSize)
      ensures a in buffer.free || (mem.begin <= a.begin && a.end <= mem.end)
    {
      if a in s[..k] {
        var i :| 0 <= i < k && s[i] == a;
        assert Apart(s[i], mem);
      } else if a in s[k + 1..] {
        var i :| k < i < |s| && s[i] == a;
        assert Apart(mem, s[i]);
      }
    }
  }

  /** Adding a space back, as a shape: what is stored afterwards was stored before, or is
      the one new element that swallows the space together with what it touches. */
  lemma AddedElement(s: seq<Interval>, inter: Interval, a: Interval) returns (f: Interval, l: Interval)
    requires Spaced(s) && Intervals.Proper(inter) && a in Added(s, inter)
    ensures a in s || a == inter || (Touches(s, inter, f) && Touches(s, inter, l) && a == Hull(f, inter, l))
  {
    f, l := inter, inter;
    AddSearches(s, inter);
    var first, past := AddFirst(s, inter), AddPast(s, inter);
    if first < |s| && s[first].Mergeable(inter) {
      f, l := s[first], s[past - 1];
      assert f in s && l in s && !Apart(l, inter) && !Apart(inter, f);
    }
  }

  ghost predicate Touches(s: seq<Interval>, inter: Interval, f: Interval) {
    f in s && !Apart(f, inter) && !Apart(inter, f)
  }

  /** Giving a space back: the list stays good and gains exactly the bytes of the space. */
  lemma GiveBack(buffer: Buffer, space: Interval)
    requires GoodFree(buffer) && Piece(space, buffer.byteSize) && space.begin < space.end
    requires ClearOfAll(buffer.free, space)
    ensures var free := Added(buffer.free, space);
            && GoodFree(buffer.(free := free))
            && (forall x :: InUnion(free, x) <==> InUnion(buffer.free, x) || space.Contains(x))
  {
    var free := Added(buffer.free, space);
    if AddFirst(buffer.free, space) < |buffer.free| {
      assert Clear(buffer.free[AddFirst(buffer.free, space)], space);
    }
    AddedIsUnion(buffer.free, space);
    forall i | 0 <= i < |free| ensures Piece(free[i], buffer.byteSize) { AddedPiece(buffer, space, free[i]); }
  }

  lemma AddedPiece(buffer: Buffer, space: Interval, a: Interval)
    requires GoodFree(buffer) && Piece(space, buffer.byteSize) && space.begin < space.end
    requires a in Added(buffer.free, space)
    ensures Piece(a, buffer.byteSize)
  {
    var f, l := AddedElement(buffer.free, space, a);
  }

  /** ... and stays clear of every other space that was clear of the list and the space. */
  lemma GiveBackStaysClear(buffer: Buffer, space: Interval, m: Interval)
    requires GoodFree(buffer) && Piece(space, buffer.byteSize) && space.begin < space.end
    requires HalfOpen(m) && m.begin < m.end && Clear(m, space) && ClearOfAll(buffer.free, m)
    ensures ClearOfAll(Added(buffer.free, space), m)
  {
    forall a | a in Added(buffer.free, space) ensures Clear(a, m) {
      var f, l := AddedElement(buffer.free, space, a);
      if Touches(buffer.free, space, f) && Touches(buffer.free, space, l) {
        assert Clear(f, m) && Clear(l, m) && HalfOpen(f) && HalfOpen(l);
        HullStaysClear(f, space, l, m);
      }
    }
  }

  lemma HullStaysClear(f: Interval, space: Interval, l: Interval, m: Interval)
    requires HalfOpen(f) && HalfOpen(l) && HalfOpen(space) && space.begin < space.end && HalfOpen(m) && m.begin < m.end
    requires !Apart(f, space) && !Apart(space, f) && !Apart(l, space) && !Apart(space, l)
    requires Clear(f, m) && Clear(l, m) && Clear(m, space)
    ensures Clear(Hull(f, space, l), m)
  {
  }

  // ----- One load

  /** The store after a space was carved for mesh `id` out of piece `mem` of a buffer that
      is either registered or brand new and wholly free. */
  ghost predicate Placement(st: Store, st': Store, id: nat, b: nat, buffer: Buffer, mem: Interval,
        free: seq<Interval>, space: Interval)
  {
    && st' == Store(st.buffers[b := buffer.(free := free)], st.registry + {b}, st.meshes[id := Mesh(b, space)])
    && (if b in st.registry then b in st.buffers && st.buffers[b] == buffer
        else b !in st.buffers && forall x: real :: 0.0 <= x < buffer.byteSize as real ==> InUnion(buffer.free, x))
    && GoodFree(buffer.(free := free)) && ClearOfAll(free, space) && mem in buffer.free
    && Piece(space, buffer.byteSize) && mem.begin <= space.begin < space.end <= mem.end
    && (forall x :: InUnion(free, x) <==> InUnion(buffer.free, x) && !space.Contains(x))
    && (forall a :: a in free ==> a in buffer.free || (mem.begin <= a.begin && a.end <= mem.end))
  }

  lemma PlacementUses(st: Store, st': Store, id: nat, b: nat, buffer: Buffer, mem: Interval, free: seq<Interval>,
        space: Interval, c: nat)
    requires Sound(st) && Placement(st, st', id, b, buffer, mem, free, space)
    ensures id !in st.meshes || c != st.meshes[id].indexBuffer ==> KeptIfUsed(st', c)
  {
    assert KeptIfUsed(st, c);
    assert st'.meshes[id].indexBuffer == b;
    if InUse(st, c) {
      var m :| m in st.meshes && st.meshes[m].indexBuffer == c;
      assert m in st'.meshes && (m != id ==> st'.meshes[m] == st.meshes[m]);
    }
    if InUse(st', c) {
      var m :| m in st'.meshes && st'.meshes[m].indexBuffer == c;
      assert m != id ==> m in st.meshes && st.meshes[m] == st'.meshes[m];
    }
  }

  lemma PlacementSeparates(st: Store, st': Store, id: nat, b: nat, buffer: Buffer, mem: Interval, free: seq<Interval>,
        space: Interval)
    requires Sound(st) && Placement(st, st', id, b, buffer, mem, free, space)
    ensures Separate(st')
  {
    forall m | m in st.meshes && st.meshes[m].indexBuffer == b
      ensures Clear(st.meshes[m].indexSpace, space) && ClearOfAll(free, st.meshes[m].indexSpace)
    {
      assert b in st.registry;
      assert Clear(mem, st.meshes[m].indexSpace);
    }
  }

  /** Destroying what nobody uses puts the one buffer that is out of order right. */
  lemma ReleasedIsSound(st: Store, e: nat)
    requires Separate(st) && forall b :: b != e ==> KeptIfUsed(st, b)
    ensures Sound(Released(st, e))
  {
    var st' := Released(st, e);
    forall b ensures KeptIfUsed(st', b) {
      assert b != e ==> KeptIfUsed(st, b);
      assert InUse(st', b) <==> InUse(st, b);
      if InUse(st, e) { assert e in st.registry && e in st.buffers; }
    }
    ReleasedIsSeparate(st, e);
  }

  lemma ReleasedIsSeparate(st: Store, e: nat)
    requires Separate(st)
    ensures Separate(Released(st, e))
  {
    var st' := Released(st, e);
    forall m | m in st'.meshes ensures st'.meshes[m].indexBuffer in st'.registry {
      assert InUse(st, st.meshes[m].indexBuffer);
    }
  }

  lemma PlacementKeepsSound(st: Store, st': Store, id: nat, b: nat, buffer: Buffer, mem: Interval,
        free: seq<Interval>, space: Interval)
    requires Sound(st) && Placement(st, st', id, b, buffer, mem, free, space)
    ensures Sound(Overwritten(st, st', id))
  {
    PlacementSeparates(st, st', id, b, buffer, mem, free, space);
    forall c ensures id !in st.meshes || c != st.meshes[id].indexBuffer ==> KeptIfUsed(st', c) {
      PlacementUses(st, st', id, b, buffer, mem, free, space, c);
    }
    if id in st.meshes { ReleasedIsSound(st', st.meshes[id].indexBuffer); }
  }

  /** Byte `x` of buffer `c` is in the space of mesh `id`. */
  ghost predicate Holds(st: Store, id: nat, c: nat, x: real) {
    id in st.meshes && st.meshes[id].indexBuffer == c && st.meshes[id].indexSpace.Contains(x)
  }

  /** Byte `x` of registered buffer `b` is neither free nor live. */
  ghost predicate Lost(st: Store, b: nat, x: real) {
    && b in st.registry && b in st.buffers && 0.0 <= x < st.buffers[b].byteSize as real
    && !InUnion(st.buffers[b].free, x) && !LiveAt(st, b, x)
  }

  lemma GoodIffNothingIsLost(st: Store)
    requires Sound(st)
    ensures Good(st) <==> forall b, x: real :: !Lost(st, b, x)
  {
    if forall b, x: real :: !Lost(st, b, x) {
      forall b, x: real | b in st.registry && b in st.buffers && 0.0 <= x < st.buffers[b].byteSize as real
        ensures InUnion(st.buffers[b].free, x) || LiveAt(st, b, x)
      {
        assert !Lost(st, b, x);
      }
    }
  }

  /** What a placement loses is what the overwritten mesh held; what was lost is not found
      again, because the space comes out of a free piece. */
  lemma PlacementLoses(st: Store, st': Store, id: nat, b: nat, buffer: Buffer, mem: Interval, free: seq<Interval>,
        space: Interval, c: nat, x: real)
    requires Sound(st) && Placement(st, st', id, b, buffer, mem, free, space)
    ensures Lost(st', c, x) <==> Lost(st, c, x) || Holds(st, id, c, x)
  {
    if c == b && space.Contains(x) {
      PlacementTakesFree(st, st', id, b, buffer, mem, free, space, x);
    } else {
      PlacementLive(st, st', id, b, buffer, mem, free, space, c, x);
      PlacementFree(st, st', id, b, buffer, mem, free, space, c, x);
      if Holds(st, id, c, x) { LiveIsNotFree(st, id, x); }
    }
  }

  /** A byte of the new space was free before, and is live afterwards. */
  lemma PlacementTakesFree(st: Store, st': Store, id: nat, b: nat, buffer: Buffer, mem: Interval, free: seq<Interval>,
        space: Interval, x: real)
    requires Sound(st) && Placement(st, st', id, b, buffer, mem, free, space) && space.Contains(x)
    ensures !Lost(st', b, x) && !Lost(st, b, x) && !Holds(st, id, b, x)
  {
    assert st'.meshes[id].indexBuffer == b && st'.meshes[id].indexSpace.Contains(x);
    var k :| 0 <= k < |buffer.free| && buffer.free[k] == mem;
    assert LiveAt(st', b, x);
    if b in st.registry {
      FreeIsGood(st, b, k);
      assert mem.Contains(x) && InUnion(buffer.free, x);
      if Holds(st, id, b, x) { LiveIsNotFree(st, id, x); }
    }
  }

  lemma FreeIsGood(st: Store, b: nat, k: nat)
    requires Separate(st) && b in st.registry && k < |st.buffers[b].free|
    ensures b in st.buffers && Piece(st.buffers[b].free[k], st.buffers[b].byteSize)
  {
  }

  /** A byte outside the new space is free afterwards as before; a new buffer is all free. */
  lemma PlacementFree(st: Store, st': Store, id: nat, b: nat, buffer: Buffer, mem: Interval, free: seq<Interval>,
        space: Interval, c: nat, x: real)
    requires Sound(st) && Placement(st, st', id, b, buffer, mem, free, space) && !(c == b && space.Contains(x))
    ensures if c !in st.registry then !Lost(st', c, x)
            else
              && c in st.buffers && c in st'.registry && c in st'.buffers
              && st'.buffers[c].byteSize == st.buffers[c].byteSize
              && (InUnion(st'.buffers[c].free, x) <==> InUnion(st.buffers[c].free, x))
  {
  }

  /** A byte outside the new space is live afterwards if another mesh holds it. */
  lemma PlacementLive(st: Store, st': Store, id: nat, b: nat, buffer: Buffer, mem: Interval, free: seq<Interval>,
        space: Interval, c: nat, x: real)
    requires Sound(st) && Placement(st, st', id, b, buffer, mem, free, space) && !(c == b && space.Contains(x))
    ensures LiveAt(st', c, x) <==> LiveAt(st, c, x) && !Holds(st, id, c, x)
  {
    if LiveAt(st', c, x) {
      var m :| m in st'.meshes && st'.meshes[m].indexBuffer == c && st'.meshes[m].indexSpace.Contains(x);
      assert m != id && m in st.meshes && st.meshes[m] == st'.meshes[m];
      assert id in st.meshes && st.meshes[id].indexBuffer == c ==>
          Clear(st.meshes[m].indexSpace, st.meshes[id].indexSpace);
    }
    if LiveAt(st, c, x) && !Holds(st, id, c, x) {
      var m :| m in st.meshes && st.meshes[m].indexBuffer == c && st.meshes[m].indexSpace.Contains(x);
      assert m != id && m in st'.meshes && st.meshes[m] == st'.meshes[m];
    }
  }

  lemma LiveIsNotFree(st: Store, m: nat, x: real)
    requires Separate(st) && m in st.meshes && st.meshes[m].indexSpace.Contains(x)
    ensures !InUnion(st.buffers[st.meshes[m].indexBuffer].free, x)
  {
    var free := st.buffers[st.meshes[m].indexBuffer].free;
    forall i | 0 <= i < |free| ensures !free[i].Contains(x) {
      assert free[i] in free && Clear(free[i], st.meshes[m].indexSpace);
    }
  }

  lemma ReleasedLoses(st: Store, e: nat, c: nat, x: real)
    requires Separate(st)
    ensures Lost(Released(st, e), c, x) <==> Lost(st, c, x) && c in Released(st, e).registry
  {
    assert LiveAt(Released(st, e), c, x) <==> LiveAt(st, c, x);
  }

  function Placed(st: Store, id: nat, b: nat, buffer: Buffer, free: seq<Interval>, space: Interval): Store {
    Store(st.buffers[b := buffer.(free := free)], st.registry + {b}, st.meshes[id := Mesh(b, space)])
  }

  lemma CarvePlaces(st: Store, id: nat, b: nat, buffer: Buffer, mem: Interval, bytes: nat)
    requires GoodFree(buffer) && mem in buffer.free && Fits(mem, bytes)
    requires 0 < bytes && bytes % BYTES_PER_INDEX == 0
    requires if b in st.registry then b in st.buffers && st.buffers[b] == buffer
             else b !in st.buffers && forall x: real :: 0.0 <= x < buffer.byteSize as real ==> InUnion(buffer.free, x)
    ensures var space := ByteSpace(mem.begin, bytes);
            && Subtracted(buffer.free, space).Some?
            && var free := Subtracted(buffer.free, space).value;
            Placement(st, Placed(st, id, b, buffer, free, space), id, b, buffer, mem, free, space)
  {
    Carve(buffer, mem, bytes);
  }

  /** A load that is not refused is a placement, after which an overwritten mesh lets go of
      its buffer. */
  lemma LoadPlaces(st: Store, q: Request)
    returns (b: nat, buffer: Buffer, mem: Interval, free: seq<Interval>, space: Interval)
    requires Sound(st) && WellPosed(st, q) && Load(st, q) != Refused
    ensures var placed := Placed(st, q.id, b, buffer, free, space);
            && Placement(st, placed, q.id, b, buffer, mem, free, space)
            && Load(st, q) == Done(Overwritten(st, placed, q.id))
    ensures Target(st, q) == Some(b)
  {
    b, buffer, mem := LoadTarget(st, q);
    space := ByteSpace(mem.begin, q.indexCount * BYTES_PER_INDEX);
    CarvedLoad(st, q, b, buffer, mem, space);
    free := Subtracted(buffer.free, space).value;
  }

  lemma CarvedLoad(st: Store, q: Request, b: nat, buffer: Buffer, mem: Interval, space: Interval)
    requires CarvesFrom(st, q, b, buffer, mem) && q.indexCount > 0 && !q.laterStepFails
    requires space == ByteSpace(mem.begin, q.indexCount * BYTES_PER_INDEX)
    ensures Subtracted(buffer.free, space).Some? && Target(st, q) == Some(b)
    ensures var free := Subtracted(buffer.free, space).value;
            var placed := Placed(st, q.id, b, buffer, free, space);
            && Placement(st, placed, q.id, b, buffer, mem, free, space)
            && Load(st, q) == Done(Overwritten(st, placed, q.id))
  {
    CarvePlaces(st, q.id, b, buffer, mem, q.indexCount * BYTES_PER_INDEX);
    LoadIsPlaced(st, q, b, buffer, space);
  }

  /** A load carves its space from the front of free piece `mem` of buffer `b`, which is either
      listed or brand new. */
  ghost predicate CarvesFrom(st: Store, q: Request, b: nat, buffer: Buffer, mem: Interval) {
    var bytes := q.indexCount * BYTES_PER_INDEX;
    var chosen := Chosen(st.buffers, q.order, bytes);
    && GoodFree(buffer) && mem in buffer.free && Fits(mem, bytes)
    && if chosen.Some? then
         chosen.value == Mesh(b, ByteSpace(mem.begin, bytes)) && b in st.registry && b in st.buffers
         && buffer == st.buffers[b]
       else
         q.created == Some(b) && mem.begin == 0.0 && b !in st.registry && b !in st.buffers
         && buffer == NewBuffer(LargerOf(bytes, q.configuredSize * BYTES_PER_INDEX))
         && forall x: real :: 0.0 <= x < buffer.byteSize as real ==> InUnion(buffer.free, x)
  }

  lemma LoadTarget(st: Store, q: Request) returns (b: nat, buffer: Buffer, mem: Interval)
    requires Sound(st) && WellPosed(st, q) && Load(st, q) != Refused
    ensures CarvesFrom(st, q, b, buffer, mem)
  {
    if Chosen(st.buffers, q.order, q.indexCount * BYTES_PER_INDEX).Some? {
      b, buffer, mem := ListedTarget(st, q);
    } else {
      b, buffer, mem := NewTarget(st, q);
    }
  }

  lemma ListedTarget(st: Store, q: Request) returns (b: nat, buffer: Buffer, mem: Interval)
    requires Sound(st) && WellPosed(st, q)
    requires Chosen(st.buffers, q.order, q.indexCount * BYTES_PER_INDEX).Some?
    ensures CarvesFrom(st, q, b, buffer, mem)
  {
    var bytes := q.indexCount * BYTES_PER_INDEX;
    b := Chosen(st.buffers, q.order, bytes).value.indexBuffer;
    ListedBufferIsGood(st, q, b);
    buffer := st.buffers[b];
    mem := FirstFit(buffer.free, bytes).value;
  }

  lemma NewTarget(st: Store, q: Request) returns (b: nat, buffer: Buffer, mem: Interval)
    requires Sound(st) && WellPosed(st, q) && q.created.Some?
    requires Chosen(st.buffers, q.order, q.indexCount * BYTES_PER_INDEX).None?
    ensures CarvesFrom(st, q, b, buffer, mem)
  {
    b := q.created.value;
    var byteSize := LargerOf(q.indexCount * BYTES_PER_INDEX, q.configuredSize * BYTES_PER_INDEX);
    buffer := NewBuffer(byteSize);
    NewBufferIsFree(byteSize);
    mem := buffer.free[0];
  }

  lemma ListedBufferIsGood(st: Store, q: Request, b: nat)
    requires Sound(st) && Arranged(st, q) && b in q.order
    ensures b in st.registry && b in st.buffers && GoodFree(st.buffers[b])
  {
  }

  /** A load unfolded. */
  lemma LoadIsPlaced(st: Store, q: Request, b: nat, buffer: Buffer, space: Interval)
    requires !q.laterStepFails && Subtracted(buffer.free, space).Some?
    requires var bytes := q.indexCount * BYTES_PER_INDEX;
             var chosen := Chosen(st.buffers, q.order, bytes);
             if chosen.Some? then
               chosen.value == Mesh(b, space) && b in st.registry && b in st.buffers && buffer == st.buffers[b]
             else
               q.created == Some(b) && space == ByteSpace(0.0, bytes) &&
               buffer == NewBuffer(LargerOf(bytes, q.configuredSize * BYTES_PER_INDEX))
    ensures var placed := Placed(st, q.id, b, buffer, Subtracted(buffer.free, space).value, space);
            Load(st, q) == Done(Overwritten(st, placed, q.id))
  {
    assert b in st.registry ==> st.registry + {b} == st.registry;
  }

  lemma NewBufferIsFree(byteSize: nat)
    requires byteSize > 0 && byteSize % BYTES_PER_INDEX == 0
    ensures GoodFree(NewBuffer(byteSize))
    ensures forall x: real :: 0.0 <= x < byteSize as real ==> InUnion(NewBuffer(byteSize).free, x)
  {
    InUnionOfOne(NewBuffer(byteSize).free[0]);
  }

  /** Loading a mesh that has an index is never undefined, hands out nothing twice, and keeps
      exactly the buffers in use. */
  lemma LoadKeepsSound(st: Store, q: Request)
    requires Sound(st) && WellPosed(st, q)
    ensures !Load(st, q).Undefined?
    ensures Load(st, q).Done? ==> Sound(Load(st, q).store)
  {
    if Load(st, q) != Refused {
      var b, buffer, mem, free, space := LoadPlaces(st, q);
      var placed := Placed(st, q.id, b, buffer, free, space);
      PlacementKeepsSound(st, placed, q.id, b, buffer, mem, free, space);
    }
  }

  /** What is lost after a load: what was lost before and what the overwritten mesh held, as
      far as the buffer is still there. */
  lemma LoadLoses(st: Store, q: Request, c: nat, x: real)
    requires Sound(st) && WellPosed(st, q) && Load(st, q).Done?
    ensures var st' := Load(st, q).store;
            Lost(st', c, x) <==> c in st'.registry && (Lost(st, c, x) || Holds(st, q.id, c, x))
  {
    var b, buffer, mem, free, space := LoadPlaces(st, q);
    var placed := Placed(st, q.id, b, buffer, free, space);
    PlacementLoses(st, placed, q.id, b, buffer, mem, free, space, c, x);
    if q.id in st.meshes {
      PlacementSeparates(st, placed, q.id, b, buffer, mem, free, space);
      ReleasedLoses(placed, st.meshes[q.id].indexBuffer, c, x);
    }
  }

  /** If the mesh is not loaded yet, nothing is lost either. */
  lemma LoadKeepsGood(st: Store, q: Request)
    requires Good(st) && WellPosed(st, q) && q.id !in st.meshes
    ensures !Load(st, q).Undefined?
    ensures Load(st, q).Done? ==> Good(Load(st, q).store)
  {
    LoadKeepsSound(st, q);
    if Load(st, q).Done? {
      var st' := Load(st, q).store;
      GoodIffNothingIsLost(st);
      forall b, x: real ensures !Lost(st', b, x) { LoadLoses(st, q, b, x); }
      GoodIffNothingIsLost(st');
    }
  }

  /** Mesh `id` is the only one in its buffer. */
  ghost predicate Alone(st: Store, id: nat) {
    id in st.meshes && forall m :: m in st.meshes && m != id ==> st.meshes[m].indexBuffer != st.meshes[id].indexBuffer
  }

  /** The load puts mesh `id` into another buffer than the one it has for itself. */
  ghost predicate LeavesAlone(st: Store, q: Request) {
    Alone(st, q.id) && Target(st, q) != Some(st.meshes[q.id].indexBuffer)
  }

  /** The old buffer of a mesh that is loaded again is destroyed just if nothing is left in it. */
  lemma OldBufferGoesIff(st: Store, q: Request)
    requires Sound(st) && WellPosed(st, q) && Load(st, q).Done? && q.id in st.meshes
    ensures st.meshes[q.id].indexBuffer !in Load(st, q).store.registry <==> LeavesAlone(st, q)
  {
    var b, buffer, mem, free, space := LoadPlaces(st, q);
    var c, st' := st.meshes[q.id].indexBuffer, Load(st, q).store;
    LoadKeepsSound(st, q);
    assert KeptIfUsed(st', c);
    assert st'.meshes == st.meshes[q.id := Mesh(b, space)];
    assert b == c ==> st'.meshes[q.id].indexBuffer == c;
    if !Alone(st, q.id) {
      var m :| m in st.meshes && m != q.id && st.meshes[m].indexBuffer == c;
      assert st'.meshes[m].indexBuffer == c;
    }
  }

  /** A load keeps the books exactly when the identity was not loaded, or nothing is left in
      its old buffer. */
  lemma LoadKeepsGoodIff(st: Store, q: Request)
    requires Good(st) && WellPosed(st, q) && Load(st, q).Done?
    ensures Good(Load(st, q).store) <==> q.id !in st.meshes || LeavesAlone(st, q)
  {
    if q.id !in st.meshes {
      LoadKeepsGood(st, q);
    } else {
      var st' := Load(st, q).store;
      LoadKeepsSound(st, q);
      OldBufferGoesIff(st, q);
      GoodIffNothingIsLost(st);
      GoodIffNothingIsLost(st');
      LoadLoses(st, q, st.meshes[q.id].indexBuffer, st.meshes[q.id].indexSpace.begin);
      forall b, x: real ensures Lost(st', b, x) ==> b == st.meshes[q.id].indexBuffer && b in st'.registry {
        LoadLoses(st, q, b, x);
      }
    }
  }

  // ----- A load without indices

  /** What the subtraction of no bytes at the beginning of a free piece does: it is undefined
      for a piece that has a byte, and changes nothing at an empty remnant. */
  lemma SubtractNoBytes(buffer: Buffer, k: nat)
    requires GoodFree(buffer) && k < |buffer.free|
    ensures var a := buffer.free[k];
            Subtracted(buffer.free, ByteSpace(a.begin, 0)) == if a.begin < a.end then None else Some(buffer.free)
  {
    var s, a := buffer.free, buffer.free[k];
    var nothing := ByteSpace(a.begin, 0);
    forall i | 0 <= i < |s| ensures Piece(s[i], buffer.byteSize) {}
    forall i | 0 <= i < k ensures s[i].Less(nothing) { assert Apart(s[i], a); }
    forall i | k < i < |s| ensures !s[i].Less(nothing) && !s[i].Mergeable(nothing) && nothing.Less(s[i]) {
      assert Apart(a, s[i]);
    }
    var first := if a.begin < a.end then k else k + 1;
    FirstFailingIsUnique(s, 0, Below(nothing), first);
    if a.begin < a.end {
      assert s[k].Mergeable(nothing) && nothing.Less(s[k]) && !s[k].IsSubinterval(nothing);
      FirstFailingIsUnique(s, k, NotAbove(nothing), k);
    }
  }

  /** Where a load takes its space from. */
  function Source(st: Store, q: Request): Buffer
    requires Target(st, q).Some?
  {
    var bytes := q.indexCount * BYTES_PER_INDEX;
    var chosen := Chosen(st.buffers, q.order, bytes);
    if chosen.Some? then st.buffers[chosen.value.indexBuffer]
    else NewBuffer(LargerOf(bytes, q.configuredSize * BYTES_PER_INDEX))
  }

  /** The piece it takes the space from, if there is one: only a new buffer of no bytes has
      none. */
  function Taken(st: Store, q: Request): Option<Interval>
    requires Target(st, q).Some?
  {
    FirstFit(Source(st, q).free, q.indexCount * BYTES_PER_INDEX)
  }

  /** Why a positive index count is demanded: a load without indices is undefined exactly
      when the piece it would take its space from has a byte. */
  lemma EmptyLoadDefinedIff(st: Store, q: Request)
    requires Sound(st) && Arranged(st, q) && q.indexCount == 0 && Load(st, q) != Refused
    ensures Load(st, q).Undefined? <==> Taken(st, q).Some? && Taken(st, q).value.begin < Taken(st, q).value.end
  {
    var buffer := Source(st, q);
    if buffer.free != [] {
      if Chosen(st.buffers, q.order, 0).None? { NewBufferIsFree(q.configuredSize * BYTES_PER_INDEX); }
      assert Piece(buffer.free[0], buffer.byteSize) && Fits(buffer.free[0], 0);
      SubtractNoBytes(buffer, 0);
    }
  }

  // ----- One unload

  /** Unloading a loaded mesh hands out nothing twice, and keeps exactly the buffers in use ... */
  lemma UnloadKeepsSound(st: Store, id: nat)
    requires Sound(st) && id in st.meshes
    ensures Unload(st, id).Done? && Sound(Unload(st, id).store)
  {
    var b, without := st.meshes[id].indexBuffer, Without(st, id);
    WithoutIsSeparate(st, id);
    forall c | c != b ensures KeptIfUsed(without, c) {
      assert KeptIfUsed(st, c);
      if InUse(st, c) {
        var m :| m in st.meshes && st.meshes[m].indexBuffer == c;
        assert m in without.meshes;
      }
    }
    ReleasedIsSound(without, b);
  }

  /** ... and keeps everything in order. */
  lemma UnloadKeepsGood(st: Store, id: nat)
    requires Good(st) && id in st.meshes
    ensures Unload(st, id).Done? && Good(Unload(st, id).store)
  {
    UnloadKeepsSound(st, id);
    GoodIffNothingIsLost(st);
    forall b, x: real ensures !Lost(Unload(st, id).store, b, x) { UnloadLoses(st, id, b, x); }
    GoodIffNothingIsLost(Unload(st, id).store);
  }

  lemma WithoutIsSeparate(st: Store, id: nat)
    requires Sound(st) && id in st.meshes
    ensures Separate(Without(st, id)) && GoodFree(Returned(st, id))
    ensures WhollyFree(Returned(st, id)) ==> Alone(st, id)
  {
    var b, space, st' := st.meshes[id].indexBuffer, st.meshes[id].indexSpace, Without(st, id);
    assert ClearOfAll(st.buffers[b].free, space);
    GiveBack(st.buffers[b], space);
    forall m | m in st'.meshes && st'.meshes[m].indexBuffer == b
      ensures ClearOfAll(st'.buffers[b].free, st'.meshes[m].indexSpace) && !WhollyFree(Returned(st, id))
    {
      GiveBackStaysClear(st.buffers[b], space, st.meshes[m].indexSpace);
      OccupiedIsNotWhollyFree(Returned(st, id), st'.meshes[m].indexSpace);
    }
    assert forall m :: m in st.meshes && m != id ==> m in st'.meshes;
  }

  lemma OccupiedIsNotWhollyFree(buffer: Buffer, space: Interval)
    requires GoodFree(buffer) && Piece(space, buffer.byteSize) && space.begin < space.end
    requires ClearOfAll(buffer.free, space)
    ensures !WhollyFree(buffer)
  {
    if |buffer.free| == 1 { assert buffer.free[0] in buffer.free && Piece(buffer.free[0], buffer.byteSize); }
  }

  /** What is lost after an unload: what was lost before, as far as the buffer is still there. */
  lemma UnloadLoses(st: Store, id: nat, c: nat, x: real)
    requires Sound(st) && id in st.meshes
    ensures var st' := Unload(st, id).store; Lost(st', c, x) <==> Lost(st, c, x) && c in st'.registry
  {
    var b, space, without := st.meshes[id].indexBuffer, st.meshes[id].indexSpace, Without(st, id);
    WithoutIsSeparate(st, id);
    assert ClearOfAll(st.buffers[b].free, space);
    GiveBack(st.buffers[b], space);
    assert LiveAt(st, c, x) <==> LiveAt(without, c, x) || Holds(st, id, c, x) by {
      if LiveAt(st, c, x) {
        var m :| m in st.meshes && st.meshes[m].indexBuffer == c && st.meshes[m].indexSpace.Contains(x);
        assert m == id || (m in without.meshes && without.meshes[m] == st.meshes[m]);
      }
      if LiveAt(without, c, x) {
        var m :| m in without.meshes && without.meshes[m].indexBuffer == c && without.meshes[m].indexSpace.Contains(x);
        assert m in st.meshes;
      }
    }
    ReleasedLoses(without, b, c, x);
  }

  /** The size test of an unload, one free element of the buffer's size, holds exactly when
      the mesh is the last one in its buffer and no byte of the buffer is lost. */
  lemma WhollyFreeIff(st: Store, id: nat)
    requires Sound(st) && id in st.meshes
    ensures var b := st.meshes[id].indexBuffer;
            WhollyFree(Returned(st, id)) <==> Alone(st, id) && forall x: real :: !Lost(st, b, x)
  {
    var b, space := st.meshes[id].indexBuffer, st.meshes[id].indexSpace;
    var buffer := Returned(st, id);
    WithoutIsSeparate(st, id);
    assert ClearOfAll(st.buffers[b].free, space);
    GiveBack(st.buffers[b], space);
    if WhollyFree(buffer) {
      forall x: real ensures !Lost(st, b, x) {
        assert space.Contains(x) ==> LiveAt(st, b, x);
        if Lost(st, b, x) { WhollyFreeCovers(buffer, x); }
      }
    } else if Alone(st, id) && forall x: real :: !Lost(st, b, x) {
      forall x: real | 0.0 <= x < buffer.byteSize as real ensures InUnion(buffer.free, x) {
        assert !Lost(st, b, x);
      }
      FullListIsOnePiece(buffer);
    }
  }

  lemma WhollyFreeCovers(buffer: Buffer, x: real)
    requires GoodFree(buffer) && WhollyFree(buffer) && 0.0 <= x < buffer.byteSize as real
    ensures InUnion(buffer.free, x)
  {
    assert Piece(buffer.free[0], buffer.byteSize);
    assert buffer.free[0].Contains(x);
  }

  lemma FullListIsOnePiece(buffer: Buffer)
    requires GoodFree(buffer) && buffer.byteSize > 0
    requires forall x: real :: 0.0 <= x < buffer.byteSize as real ==> InUnion(buffer.free, x)
    ensures WhollyFree(buffer)
  {
    var s := buffer.free;
    assert InUnion(s, 0.0);
    EndOfFirstIsUncovered(buffer);
  }

  lemma EndOfFirstIsUncovered(buffer: Buffer)
    requires GoodFree(buffer) && |buffer.free| > 0
    ensures var x := buffer.free[0].end;
            0.0 <= x && !InUnion(buffer.free, x) && (|buffer.free| > 1 ==> x < buffer.byteSize as real)
  {
    var s := buffer.free;
    assert Piece(s[0], buffer.byteSize);
    if |s| > 1 { assert Piece(s[1], buffer.byteSize) && Apart(s[0], s[1]); }
    assert forall i :: 0 < i < |s| ==> Apart(s[0], s[i]);
  }

  // ----- Whole runs

  datatype Operation = LoadMesh(q: Request) | UnloadMesh(id: nat)

  function Step(st: Store, op: Operation): Option<Store> {
    var outcome := match op case LoadMesh(q) => Load(st, q) case UnloadMesh(id) => Unload(st, id);
    match outcome
    case Done(st') => Some(st')
    case Refused => Some(st)
    case Undefined => None
  }

  /** The backend loads what it is told to, also a mesh that is loaded. */
  ghost predicate Allowed(st: Store, op: Operation) {
    op.LoadMesh? ==> WellPosed(st, op.q)
  }

  /** A load of a mesh that is loaded already. The asset store counts the users of a mesh and
      asks for a load when the count is one, but it reads the count after it has unlocked its
      mutex. Two users both read one, and both ask, when a third gives the mesh up between the
      two counts and the two readings. */
  predicate Reloads(st: Store, op: Operation) {
    op.LoadMesh? && op.q.id in st.meshes && Load(st, op.q).Done?
  }

  /** Operation `i` is allowed and leads from its store to the next. */
  ghost predicate Performed(trace: seq<Store>, ops: seq<Operation>, i: nat) {
    i < |ops| && i + 1 < |trace| && Allowed(trace[i], ops[i]) && Step(trace[i], ops[i]) == Some(trace[i + 1])
  }

  /** `trace` is a run of the operations from the empty store. */
  ghost predicate IsRun(trace: seq<Store>, ops: seq<Operation>) {
    && |trace| == |ops| + 1
    && trace[0] == Store(map[], {}, map[])
    && forall i :: 0 <= i < |ops| ==> Performed(trace, ops, i)
  }

  /** Over every run, reloads included, the live spaces are disjoint, aligned and registered, no
      stored element of a free list, remnants included, lies inside one, and the next
      operation is defined again. */
  lemma {:induction false} RunsStaySound(trace: seq<Store>, ops: seq<Operation>, i: nat)
    requires IsRun(trace, ops) && i < |trace|
    ensures Sound(trace[i])
    ensures forall op :: Allowed(trace[i], op) ==> Step(trace[i], op).Some?
  {
    if i == 0 {
    } else {
      RunsStaySound(trace, ops, i - 1);
      assert Performed(trace, ops, i - 1);
      var st, op := trace[i - 1], ops[i - 1];
      if op.LoadMesh? { LoadKeepsSound(st, op.q); } else if op.id in st.meshes { UnloadKeepsSound(st, op.id); }
    }
    forall op | Allowed(trace[i], op) ensures Step(trace[i], op).Some? {
      if op.LoadMesh? { LoadKeepsSound(trace[i], op.q); }
    }
  }

  /** Buffer `b` was in use in every store after operation `k`, up to store `i`. */
  ghost predicate UsedSince(trace: seq<Store>, b: nat, k: nat, i: nat)
    requires i < |trace|
  {
    forall j: nat :: k < j <= i ==> InUse(trace[j], b)
  }

  /** The space that the mesh had when operation `k` loaded it again belongs to nobody, and its
      buffer is still there. */
  ghost predicate Orphaned(trace: seq<Store>, ops: seq<Operation>, k: nat, i: nat)
    requires i < |trace| && |ops| < |trace|
  {
    && k < i && k < |ops| && Reloads(trace[k], ops[k])
    && UsedSince(trace, trace[k].meshes[ops[k].q.id].indexBuffer, k, i)
  }

  /** ... and byte `x` of buffer `b` is in it. */
  ghost predicate OrphanedByte(trace: seq<Store>, ops: seq<Operation>, k: nat, i: nat, b: nat, x: real)
    requires i < |trace| && |ops| < |trace|
  {
    Orphaned(trace, ops, k, i) && Holds(trace[k], ops[k].q.id, b, x)
  }

  /** Byte `x` of buffer `b` is an orphan: of some reload, and in a buffer in use ever since. */
  ghost predicate IsOrphan(trace: seq<Store>, ops: seq<Operation>, i: nat, b: nat, x: real)
    requires i < |trace| && |ops| < |trace|
  {
    exists k: nat :: OrphanedByte(trace, ops, k, i, b, x)
  }

  /** What one operation loses. */
  lemma StepLoses(st: Store, op: Operation, st': Store, b: nat, x: real)
    requires Sound(st) && Allowed(st, op) && Step(st, op) == Some(st')
    ensures Lost(st', b, x) <==>
              b in st'.registry && (Lost(st, b, x) || (Reloads(st, op) && Holds(st, op.q.id, b, x)))
  {
    if op.LoadMesh? {
      if Load(st, op.q).Done? { LoadLoses(st, op.q, b, x); }
    } else if op.id in st.meshes {
      UnloadLoses(st, op.id, b, x);
    }
  }

  /** A byte is lost exactly when a reload took it from its mesh and its buffer has been in use
      ever since. */
  lemma {:induction false} LostIffOrphaned(trace: seq<Store>, ops: seq<Operation>, i: nat, b: nat, x: real)
    requires IsRun(trace, ops) && i < |trace|
    ensures Lost(trace[i], b, x) <==> IsOrphan(trace, ops, i, b, x)
  {
    if i == 0 {
    } else {
      LostIffOrphaned(trace, ops, i - 1, b, x);
      RunsStaySound(trace, ops, i - 1);
      RunsStaySound(trace, ops, i);
      assert Performed(trace, ops, i - 1);
      StepLoses(trace[i - 1], ops[i - 1], trace[i], b, x);
      assert KeptIfUsed(trace[i], b);
      OrphansUpTo(trace, ops, i, b, x);
    }
  }

  lemma OrphanUpTo(trace: seq<Store>, ops: seq<Operation>, k: nat, i: nat, b: nat, x: real)
    requires k + 1 < i < |trace| == |ops| + 1
    ensures OrphanedByte(trace, ops, k, i, b, x) <==> OrphanedByte(trace, ops, k, i - 1, b, x) && InUse(trace[i], b)
  {
    assert UsedSince(trace, b, k, i) <==> UsedSince(trace, b, k, i - 1) && InUse(trace[i], b);
  }

  lemma OrphansUpTo(trace: seq<Store>, ops: seq<Operation>, i: nat, b: nat, x: real)
    requires 0 < i < |trace| == |ops| + 1
    ensures IsOrphan(trace, ops, i, b, x) <==>
              InUse(trace[i], b) && (IsOrphan(trace, ops, i - 1, b, x) ||
                (Reloads(trace[i - 1], ops[i - 1]) && Holds(trace[i - 1], ops[i - 1].q.id, b, x)))
  {
    if IsOrphan(trace, ops, i, b, x) {
      var k: nat :| OrphanedByte(trace, ops, k, i, b, x);
      if k < i - 1 { OrphanUpTo(trace, ops, k, i, b, x); }
    }
    if InUse(trace[i], b) && IsOrphan(trace, ops, i - 1, b, x) {
      var k: nat :| OrphanedByte(trace, ops, k, i - 1, b, x);
      OrphanUpTo(trace, ops, k, i, b, x);
    }
    if InUse(trace[i], b) && Reloads(trace[i - 1], ops[i - 1]) && Holds(trace[i - 1], ops[i - 1].q.id, b, x) {
      NewOrphan(trace, ops, i, b, x);
    }
  }

  lemma NewOrphan(trace: seq<Store>, ops: seq<Operation>, i: nat, b: nat, x: real)
    requires 0 < i < |trace| == |ops| + 1 && InUse(trace[i], b)
    requires Reloads(trace[i - 1], ops[i - 1]) && Holds(trace[i - 1], ops[i - 1].q.id, b, x)
    ensures IsOrphan(trace, ops, i, b, x)
  {
    assert OrphanedByte(trace, ops, i - 1, i, b, x);
  }

  /** Over every run the live spaces and the free lists partition the registered buffers,
      exactly as long as no buffer in use holds a space that a reload has orphaned. */
  lemma RunsStayGoodIff(trace: seq<Store>, ops: seq<Operation>, i: nat)
    requires IsRun(trace, ops) && i < |trace|
    ensures Good(trace[i]) <==> forall k: nat :: !Orphaned(trace, ops, k, i)
  {
    RunsStaySound(trace, ops, i);
    GoodIffNothingIsLost(trace[i]);
    forall b, x: real ensures Lost(trace[i], b, x) <==> IsOrphan(trace, ops, i, b, x) {
      LostIffOrphaned(trace, ops, i, b, x);
    }
    forall k: nat | Orphaned(trace, ops, k, i)
      ensures !Good(trace[i])
    {
      OrphanIsLost(trace, ops, k, i);
    }
  }

  lemma OrphanIsLost(trace: seq<Store>, ops: seq<Operation>, k: nat, i: nat)
    requires IsRun(trace, ops) && i < |trace| && Orphaned(trace, ops, k, i)
    ensures exists b, x: real :: Lost(trace[i], b, x)
  {
    RunsStaySound(trace, ops, k);
    var mesh := trace[k].meshes[ops[k].q.id];
    assert OrphanedByte(trace, ops, k, i, mesh.indexBuffer, mesh.indexSpace.begin);
    LostIffOrphaned(trace, ops, i, mesh.indexBuffer, mesh.indexSpace.begin);
  }

  /** A byte of a registered buffer is never free and live at once, nor live twice. */
  lemma NoByteTwice(st: Store, m: nat, x: real)
    requires Sound(st) && m in st.meshes && st.meshes[m].indexSpace.Contains(x)
    ensures !InUnion(st.buffers[st.meshes[m].indexBuffer].free, x)
    ensures forall n :: n in st.meshes && n != m && st.meshes[n].indexBuffer == st.meshes[m].indexBuffer ==>
              !st.meshes[n].indexSpace.Contains(x)
  {
    LiveIsNotFree(st, m, x);
  }

  // ----- The draw command

  function FirstIndex(mesh: Mesh): int { mesh.indexSpace.begin.Floor / BYTES_PER_INDEX }

  function IndexCount(mesh: Mesh): int { mesh.indexSpace.Size().Floor / BYTES_PER_INDEX }

  /** The divisions in the draw command are exact, so it names precisely the indices of the
      mesh: they fill its space and lie inside the buffer. */
  lemma DrawNamesOwnIndices(st: Store, m: nat)
    requires Sound(st) && m in st.meshes
    ensures var mesh := st.meshes[m];
            && mesh.indexSpace.begin == (BYTES_PER_INDEX * FirstIndex(mesh)) as real
            && mesh.indexSpace.end == (BYTES_PER_INDEX * (FirstIndex(mesh) + IndexCount(mesh))) as real
            && 0 <= FirstIndex(mesh) && 0 < IndexCount(mesh)
            && BYTES_PER_INDEX * (FirstIndex(mesh) + IndexCount(mesh)) <= st.buffers[mesh.indexBuffer].byteSize
  {
    PieceIsIndexRange(st.meshes[m], st.buffers[st.meshes[m].indexBuffer].byteSize);
  }

  lemma PieceIsIndexRange(mesh: Mesh, byteSize: nat)
    requires Piece(mesh.indexSpace, byteSize) && mesh.indexSpace.begin < mesh.indexSpace.end
    ensures mesh.indexSpace.begin == (BYTES_PER_INDEX * FirstIndex(mesh)) as real
    ensures mesh.indexSpace.end == (BYTES_PER_INDEX * (FirstIndex(mesh) + IndexCount(mesh))) as real
    ensures 0 <= FirstIndex(mesh) && 0 < IndexCount(mesh)
    ensures BYTES_PER_INDEX * (FirstIndex(mesh) + IndexCount(mesh)) <= byteSize
  {
    var space := mesh.indexSpace;
    assert space.Size() == (space.end.Floor - space.begin.Floor) as real;
  }

  /** ... and the index ranges of two meshes of one buffer do not meet. */
  lemma DrawsDoNotMeet(st: Store, m: nat, n: nat)
    requires Sound(st) && m in st.meshes && n in st.meshes && m != n
    requires st.meshes[m].indexBuffer == st.meshes[n].indexBuffer
    ensures var a, b := st.meshes[m], st.meshes[n];
            FirstIndex(a) + IndexCount(a) <= FirstIndex(b) || FirstIndex(b) + IndexCount(b) <= FirstIndex(a)
  {
    DrawNamesOwnIndices(st, m);
    DrawNamesOwnIndices(st, n);
    assert Clear(st.meshes[m].indexSpace, st.meshes[n].indexSpace);
  }

  /** A freshly loaded mesh is drawn with as many indices as its data has. */
  lemma LoadedMeshDrawsAll(st: Store, q: Request)
    requires Sound(st) && WellPosed(st, q) && Load(st, q).Done?
    ensures q.id in Load(st, q).store.meshes && IndexCount(Load(st, q).store.meshes[q.id]) == q.indexCount
  {
    var mesh := Load(st, q).store.meshes[q.id];
    assert mesh.indexSpace.Size() == (q.indexCount * BYTES_PER_INDEX) as real;
  }

  // ----- Reloads by example

  const EMPTY := Store(map[], {}, map[])
  const LOW := ByteSpace(0.0, 4)
  const HIGH := ByteSpace(4.0, 4)
  const REMNANT := ByteSpace(0.0, 0)

  // Buffers of two indices: the second load goes into the buffer of the first.
  const FIRST := Request(7, 1, [], 2, Some(0), false)
  const SECOND := Request(7, 1, [0], 2, None, false)
  const ONCE_LOADED := Store(map[0 := Buffer(8, [REMNANT, HIGH])], {0}, map[7 := Mesh(0, LOW)])
  const TWICE_LOADED := Store(map[0 := Buffer(8, [REMNANT])], {0}, map[7 := Mesh(0, HIGH)])

  // Buffers of one index: the second load needs a new one.
  const FIRST_OF_ONE := Request(7, 1, [], 1, Some(0), false)
  const SECOND_OF_ONE := Request(7, 1, [0], 1, Some(1), false)
  const ONE_FULL := Store(map[0 := Buffer(4, [])], {0}, map[7 := Mesh(0, LOW)])
  const BOTH_FULL := Store(map[0 := Buffer(4, []), 1 := Buffer(4, [])], {0, 1}, map[7 := Mesh(1, LOW)])
  const OTHER_FULL := Store(map[1 := Buffer(4, [])], {1}, map[7 := Mesh(1, LOW)])

  lemma CarveTheFront()
    ensures Subtracted([ByteSpace(0.0, 8)], LOW) == Some([REMNANT, HIGH])
  {
    var whole := ByteSpace(0.0, 8);
    SubtractedInside([whole], LOW, 0);
    assert [whole][..0] + Pieces(whole, whole, LOW) + [whole][1..] == [REMNANT, HIGH];
  }

  lemma CarveTheHigh()
    ensures Subtracted([REMNANT, HIGH], HIGH) == Some([REMNANT])
  {
    var free := [REMNANT, HIGH];
    SubtractedInside(free, HIGH, 1);
    assert free[..1] + Pieces(HIGH, HIGH, HIGH) + free[2..] == [REMNANT];
  }

  lemma CarveTheWhole()
    ensures Subtracted([LOW], LOW) == Some([])
  {
    SubtractedInside([LOW], LOW, 0);
    assert [LOW][..0] + Pieces(LOW, LOW, LOW) + [LOW][1..] == [];
  }

  lemma FirstLoadExample()
    ensures Load(EMPTY, FIRST) == Done(ONCE_LOADED)
  {
    CarveTheFront();
    LoadIsPlaced(EMPTY, FIRST, 0, Buffer(8, [ByteSpace(0.0, 8)]), LOW);
  }

  lemma SecondLoadExample()
    ensures Load(ONCE_LOADED, SECOND) == Done(TWICE_LOADED)
  {
    CarveTheHigh();
    SecondIsChosen();
    LoadIsPlaced(ONCE_LOADED, SECOND, 0, Buffer(8, [REMNANT, HIGH]), HIGH);
    assert InUse(TWICE_LOADED, 0) by { assert TWICE_LOADED.meshes[7].indexBuffer == 0; }
    assert Placed(ONCE_LOADED, 7, 0, Buffer(8, [REMNANT, HIGH]), [REMNANT], HIGH) == TWICE_LOADED;
  }

  lemma SecondIsChosen()
    ensures Chosen(ONCE_LOADED.buffers, [0], 4) == Some(Mesh(0, HIGH))
  {
    var free := [REMNANT, HIGH];
    assert free[1..] == [HIGH] && FirstFit(free, 4) == Some(HIGH);
  }

  lemma UnloadExample()
    ensures Unload(TWICE_LOADED, 7) == Done(EMPTY)
  {
    var without := Without(TWICE_LOADED, 7);
    assert without.meshes == map[] && without.buffers - {0} == map[] && without.registry - {0} == {};
  }

  lemma LostInExample()
    ensures Lost(TWICE_LOADED, 0, 0.0)
  {
  }

  /** A mesh that is loaded twice loses the first four bytes of its buffer; its unload destroys
      the buffer, and what was lost with it. */
  lemma ReloadExample() returns (trace: seq<Store>, ops: seq<Operation>)
    ensures IsRun(trace, ops) && |ops| == 3
    ensures Reloads(trace[1], ops[1]) && Lost(trace[2], 0, 0.0)
    ensures trace[3].registry == {} && Good(trace[3])
  {
    LostInExample();
    EmptyIsGood();
    trace, ops := ReloadedExample();
    UnloadExample();
    trace, ops := Extended(trace, ops, UnloadMesh(7), EMPTY);
  }

  lemma LoadedExample() returns (trace: seq<Store>, ops: seq<Operation>)
    ensures IsRun(trace, ops) && |ops| == 1 && trace == [EMPTY, ONCE_LOADED]
  {
    FirstLoadExample();
    trace, ops := Extended([EMPTY], [], LoadMesh(FIRST), ONCE_LOADED);
  }

  lemma ReloadedExample() returns (trace: seq<Store>, ops: seq<Operation>)
    ensures IsRun(trace, ops) && |ops| == 2 && trace == [EMPTY, ONCE_LOADED, TWICE_LOADED]
    ensures Reloads(trace[1], ops[1])
  {
    SecondLoadExample();
    trace, ops := LoadedExample();
    trace, ops := Extended(trace, ops, LoadMesh(SECOND), TWICE_LOADED);
  }

  /** A run goes on with an operation. */
  lemma Extended(trace: seq<Store>, ops: seq<Operation>, op: Operation, st: Store)
    returns (trace': seq<Store>, ops': seq<Operation>)
    requires IsRun(trace, ops) && Allowed(trace[|ops|], op) && Step(trace[|ops|], op) == Some(st)
    ensures IsRun(trace', ops') && trace' == trace + [st] && ops' == ops + [op]
  {
    trace', ops' := trace + [st], ops + [op];
    forall i | 0 <= i < |ops'| ensures Performed(trace', ops', i) {
      assert i < |ops| ==> Performed(trace, ops, i);
    }
  }

  lemma EmptyIsGood()
    ensures Good(EMPTY)
  {
  }

  lemma FirstLoadOfOne()
    ensures Load(EMPTY, FIRST_OF_ONE) == Done(ONE_FULL)
  {
    CarveTheWhole();
    LoadIsPlaced(EMPTY, FIRST_OF_ONE, 0, Buffer(4, [LOW]), LOW);
  }

  lemma SecondLoadOfOne()
    ensures Load(ONE_FULL, SECOND_OF_ONE) == Done(OTHER_FULL)
  {
    CarveTheWhole();
    assert Chosen(ONE_FULL.buffers, [0], 4) == None;
    LoadIsPlaced(ONE_FULL, SECOND_OF_ONE, 1, Buffer(4, [LOW]), LOW);
    BothArePlaced();
    OverwrittenOfOne();
  }

  lemma BothArePlaced()
    ensures Placed(ONE_FULL, 7, 1, Buffer(4, [LOW]), [], LOW) == BOTH_FULL
  {
  }

  lemma OverwrittenOfOne()
    ensures Overwritten(ONE_FULL, BOTH_FULL, 7) == OTHER_FULL
  {
    assert BOTH_FULL.buffers - {0} == OTHER_FULL.buffers && BOTH_FULL.registry - {0} == OTHER_FULL.registry;
  }

  lemma HarmlessReloadSteps()
    ensures var load, reload := LoadMesh(FIRST_OF_ONE), LoadMesh(SECOND_OF_ONE);
            && Allowed(EMPTY, load) && Step(EMPTY, load) == Some(ONE_FULL)
            && Allowed(ONE_FULL, reload) && Step(ONE_FULL, reload) == Some(OTHER_FULL)
            && Reloads(ONE_FULL, reload)
  {
    FirstLoadOfOne();
    SecondLoadOfOne();
  }

  /** A mesh that is loaded again into another buffer leaves its old one empty: it is destroyed,
      and nothing is lost. */
  lemma HarmlessReloadExample() returns (trace: seq<Store>, ops: seq<Operation>)
    ensures IsRun(trace, ops) && |ops| == 2 && Reloads(trace[1], ops[1])
    ensures trace[2].registry == {1} && Good(trace[2])
  {
    HarmlessReloadSteps();
    trace, ops := [EMPTY, ONE_FULL, OTHER_FULL], [LoadMesh(FIRST_OF_ONE), LoadMesh(SECOND_OF_ONE)];
    assert Performed(trace, ops, 0) && Performed(trace, ops, 1);
    RunsStayGoodIff(trace, ops, 2);
    assert !InUse(trace[2], 0);
    assert !UsedSince(trace, 0, 1, 2);
  }

  // ----- The backend's part that keeps the index buffers

  class IndexBuffers {
    var buffers: map<nat, Buffer>
    var registry: set<nat>
    var meshes: map<nat, Mesh>

    function Contents(): Store
      reads this
    {
      Store(buffers, registry, meshes)
    }

    constructor ()
      ensures Contents() == Store(map[], {}, map[])
    {
      buffers, registry, meshes := map[], {}, map[];
    }

    /** The two nested search loops of a load: the inner one stops at the first piece that
        fits, the outer one does not stop. */
    method Search(order: seq<nat>, bytes: nat) returns (chosen: Option<Mesh>)
      ensures chosen == Chosen(buffers, order, bytes)
    {
      chosen := None;
      var i := 0;
      while i < |order|
        invariant 0 <= i <= |order| && chosen == Chosen(buffers, order[..i], bytes)
      {
        var b := order[i];
        assert order[..i + 1][..i] == order[..i];
        i := i + 1;
        if b !in buffers { continue; }
        var free, j := buffers[b].free, 0;
        while j < |free|
          invariant 0 <= j <= |free| && FirstFit(free, bytes) == FirstFit(free[j..], bytes)
          invariant chosen == Chosen(buffers, order[..i - 1], bytes)
        {
          if Fits(free[j], bytes) {
            chosen := Some(Mesh(b, ByteSpace(free[j].begin, bytes)));
            break;
          }
          j := j + 1;
        }
      }
      assert order[..i] == order;
    }

    /** A load that stays within defined behaviour, of any mesh. */
    method LoadMesh(q: Request) returns (ok: bool)
      requires Sound(Contents()) && Arranged(Contents(), q) && !Load(Contents(), q).Undefined?
      modifies this
      ensures q.indexCount > 0 ==> Sound(Contents())
      ensures q.indexCount > 0 && old(Good(Contents())) ==>
                (Good(Contents()) <==> !ok || q.id !in old(meshes) || LeavesAlone(old(Contents()), q))
      ensures if ok then Load(old(Contents()), q) == Done(Contents())
              else Load(old(Contents()), q) == Refused && Contents() == old(Contents())
    {
      if q.indexCount > 0 && Load(Contents(), q).Done? { LoadKeepsBooks(Contents(), q); }
      var bytes := q.indexCount * BYTES_PER_INDEX;
      var chosen := Search(q.order, bytes);
      var mesh, buffer;
      if chosen.None? {
        if q.created.None? { return false; }
        mesh := Mesh(q.created.value, ByteSpace(0.0, bytes));
        buffer := NewBuffer(LargerOf(bytes, q.configuredSize * BYTES_PER_INDEX));
      } else {
        mesh := chosen.value;
        buffer := buffers[mesh.indexBuffer];
      }
      if q.laterStepFails { return false; }
      ghost var before := Contents();
      assert Load(before, q).Done?;
      SubtractableUnderLoad(before, q, mesh, buffer);
      InsertOrAssign(q.id, mesh);
      TakeSpace(mesh, buffer, chosen.None?);
      OverwrittenBefore(before, q.id, mesh, buffer, chosen.None?);
      return true;
    }

    /** Takes the space of the mesh from its buffer, and registers the buffer if it is new. */
    method TakeSpace(mesh: Mesh, buffer: Buffer, isNew: bool)
      requires Subtracted(buffer.free, mesh.indexSpace).Some?
      requires Partitioned(buffer.free, 0, Below(mesh.indexSpace))
      requires Partitioned(buffer.free, SubtractFirst(buffer.free, mesh.indexSpace), NotAbove(mesh.indexSpace))
      modifies this
      ensures Contents() == WithSpaceTaken(old(Contents()), mesh, buffer, isNew)
    {
      var un := new IntervalUnion();
      un.storage := buffer.free;
      un.Subtract(mesh.indexSpace);
      buffers := buffers[mesh.indexBuffer := buffer.(free := un.storage)];
      if isNew { registry := registry + {mesh.indexBuffer}; }
    }

    /** Enters the mesh; one that is overwritten lets go of its buffer. */
    method InsertOrAssign(id: nat, mesh: Mesh)
      modifies this
      ensures var before := old(Contents());
              Contents() == Overwritten(before, before.(meshes := before.meshes[id := mesh]), id)
    {
      var overwritten := if id in meshes then Some(meshes[id].indexBuffer) else None;
      meshes := meshes[id := mesh];
      if overwritten.Some? { LetGo(overwritten.value); }
    }

    /** A reference of a mesh to its buffer goes: the last one takes the buffer with it. */
    method LetGo(b: nat)
      modifies this
      ensures Contents() == Released(old(Contents()), b)
    {
      var users := set m | m in meshes && meshes[m].indexBuffer == b;
      if users == {} {
        assert !InUse(Contents(), b) by { assert forall m :: m in meshes && meshes[m].indexBuffer == b ==> m in users; }
        buffers := buffers - {b};
        registry := registry - {b};
      } else {
        var m :| m in users;
        assert InUse(Contents(), b);
      }
    }

    /** The free list with a space added to it. */
    method WithSpace(free: seq<Interval>, space: Interval) returns (more: seq<Interval>)
      requires Partitioned(free, 0, BelowAndNotMergeable(space))
      requires Partitioned(free, AddFirst(free, space), NotAboveOrMergeable(space))
      ensures more == Added(free, space)
    {
      var un := new IntervalUnion();
      un.storage := free;
      un.Add(space);
      more := un.storage;
    }

    method UnloadMesh(id: nat) returns (ok: bool)
      requires Sound(Contents())
      modifies this
      ensures Sound(Contents()) && (old(Good(Contents())) ==> Good(Contents()))
      ensures ok <==> id in old(meshes)
      ensures if ok then Unload(old(Contents()), id) == Done(Contents()) else Contents() == old(Contents())
    {
      if id !in meshes { return false; }
      UnloadKeepsSound(Contents(), id);
      if Good(Contents()) { UnloadKeepsGood(Contents(), id); }
      var mesh := meshes[id];
      var buffer := buffers[mesh.indexBuffer];
      AddableUnderUnload(Contents(), id);
      var free := WithSpace(buffer.free, mesh.indexSpace);
      buffer := buffer.(free := free);
      buffers := buffers[mesh.indexBuffer := buffer];
      if |buffer.free| == 1 && buffer.free[0].Size() == buffer.byteSize as real {
        registry := registry - {mesh.indexBuffer};
      }
      meshes := meshes - {id};
      LetGo(mesh.indexBuffer);
      return true;
    }
  }

  /** What an unload adds to meets the demands of `+=`. */
  lemma AddableUnderUnload(st: Store, id: nat)
    requires Sound(st) && id in st.meshes
    ensures var mesh := st.meshes[id];
            mesh.indexBuffer in st.buffers && var free := st.buffers[mesh.indexBuffer].free;
            Partitioned(free, 0, BelowAndNotMergeable(mesh.indexSpace)) &&
            Partitioned(free, AddFirst(free, mesh.indexSpace), NotAboveOrMergeable(mesh.indexSpace))
  {
    AddSearchesPartitioned(st.buffers[st.meshes[id].indexBuffer].free, st.meshes[id].indexSpace);
  }

  /** What a load that is carried out does to the books. */
  lemma LoadKeepsBooks(st: Store, q: Request)
    requires Sound(st) && WellPosed(st, q) && Load(st, q).Done?
    ensures Sound(Load(st, q).store)
    ensures Good(st) ==> (Good(Load(st, q).store) <==> q.id !in st.meshes || LeavesAlone(st, q))
  {
    LoadKeepsSound(st, q);
    if Good(st) { LoadKeepsGoodIff(st, q); }
  }

  function WithSpaceTaken(st: Store, mesh: Mesh, buffer: Buffer, isNew: bool): Store
    requires Subtracted(buffer.free, mesh.indexSpace).Some?
  {
    Store(st.buffers[mesh.indexBuffer := buffer.(free := Subtracted(buffer.free, mesh.indexSpace).value)],
          if isNew then st.registry + {mesh.indexBuffer} else st.registry, st.meshes)
  }

  /** It makes no difference that the old buffer goes before the new space is taken. */
  lemma OverwrittenBefore(st: Store, id: nat, mesh: Mesh, buffer: Buffer, isNew: bool)
    requires Subtracted(buffer.free, mesh.indexSpace).Some?
    ensures var entered := st.(meshes := st.meshes[id := mesh]);
            WithSpaceTaken(Overwritten(st, entered, id), mesh, buffer, isNew) ==
            Overwritten(st, WithSpaceTaken(entered, mesh, buffer, isNew), id)
  {
    var entered, b := st.(meshes := st.meshes[id := mesh]), mesh.indexBuffer;
    var taken := WithSpaceTaken(entered, mesh, buffer, isNew);
    assert entered.meshes[id].indexBuffer == b;
    if id in st.meshes {
      var c := st.meshes[id].indexBuffer;
      var before := WithSpaceTaken(Released(entered, c), mesh, buffer, isNew);
      assert InUse(entered, c) <==> InUse(taken, c);
      if !InUse(entered, c) {
        assert c != b;
        assert taken.registry - {c} == before.registry && taken.buffers - {c} == before.buffers;
      }
    }
  }

  /** What a load subtracts from meets the demands of `-=`. */
  lemma SubtractableUnderLoad(st: Store, q: Request, mesh: Mesh, buffer: Buffer)
    requires Sound(st) && Arranged(st, q) && Load(st, q).Done? && buffer == Source(st, q)
    requires var bytes := q.indexCount * BYTES_PER_INDEX;
             var chosen := Chosen(st.buffers, q.order, bytes);
             mesh == if chosen.Some? then chosen.value else Mesh(q.created.value, ByteSpace(0.0, bytes))
    ensures Subtracted(buffer.free, mesh.indexSpace).Some?
    ensures Partitioned(buffer.free, 0, Below(mesh.indexSpace))
    ensures Partitioned(buffer.free, SubtractFirst(buffer.free, mesh.indexSpace), NotAbove(mesh.indexSpace))
  {
    SourceIsGood(st, q);
    SearchesInGoodFree(buffer, mesh.indexSpace.begin, q.indexCount * BYTES_PER_INDEX);
  }

  lemma SourceIsGood(st: Store, q: Request)
    requires Sound(st) && Arranged(st, q) && Target(st, q).Some?
    ensures GoodFree(Source(st, q))
  {
    var bytes := q.indexCount * BYTES_PER_INDEX;
    if Chosen(st.buffers, q.order, bytes).Some? {
      ListedSourceIsGood(st, q);
    } else {
      NewBufferIsGood(LargerOf(bytes, q.configuredSize * BYTES_PER_INDEX));
    }
  }

  lemma ListedSourceIsGood(st: Store, q: Request)
    requires Sound(st) && Arranged(st, q)
    requires Chosen(st.buffers, q.order, q.indexCount * BYTES_PER_INDEX).Some?
    ensures var b := Chosen(st.buffers, q.order, q.indexCount * BYTES_PER_INDEX).value.indexBuffer;
            b in st.buffers && GoodFree(st.buffers[b])
  {
    ListedBufferIsGood(st, q, Chosen(st.buffers, q.order, q.indexCount * BYTES_PER_INDEX).value.indexBuffer);
  }

  lemma NewBufferIsGood(byteSize: nat)
    requires byteSize % BYTES_PER_INDEX == 0
    ensures GoodFree(NewBuffer(byteSize))
  {
    if byteSize > 0 { NewBufferIsFree(byteSize); }
  }

  lemma SearchesInGoodFree(buffer: Buffer, begin: real, bytes: nat)
    requires GoodFree(buffer)
    ensures Partitioned(buffer.free, 0, Below(ByteSpace(begin, bytes)))
    ensures var space := ByteSpace(begin, bytes);
            Partitioned(buffer.free, SubtractFirst(buffer.free, space), NotAbove(space))
  {
    var s := buffer.free;
    forall i, j | 0 <= i < j < |s| ensures s[i].begin <= s[i].end <= s[j].begin <= s[j].end {
      assert Piece(s[i], buffer.byteSize) && Piece(s[j], buffer.byteSize) && Apart(s[i], s[j]);
    }
  }
}
