/** The per-frame grouping of entities into draw ranges: a counting sort over the keys of a
    hash map, whose iteration order is arbitrary. */
module DrawGrouping {

  /** What is drawn together: one mesh for one set of render targets. */
  datatype Chunk = Chunk(mesh: nat, targetSet: nat)

  datatype Entity = Entity(chunk: Chunk, transform: int)

  datatype Draw = Draw(mesh: nat, offset: nat, count: nat)

  // ----- Counting

  function CountIn(es: seq<Entity>, c: Chunk): nat {
    if es == [] then 0 else CountIn(es[..|es| - 1], c) + if es[|es| - 1].chunk == c then 1 else 0
  }

  /** The transforms of the entities of one chunk, in entity order. */
  function TransformsOf(es: seq<Entity>, c: Chunk): seq<int> {
    if es == [] then []
    else TransformsOf(es[..|es| - 1], c) + if es[|es| - 1].chunk == c then [es[|es| - 1].transform] else []
  }

  ghost predicate SizesOf(sizes: map<Chunk, nat>, es: seq<Entity>) {
    && (forall i :: 0 <= i < |es| ==> es[i].chunk in sizes)
    && (forall c :: c in sizes ==> sizes[c] == CountIn(es, c) > 0)
  }

  method CountChunks(es: seq<Entity>) returns (sizes: map<Chunk, nat>, total: nat)
    ensures SizesOf(sizes, es) && total == |es|
  {
    sizes, total := map[], 0;
    while total < |es|
      invariant 0 <= total <= |es| && SizesOf(sizes, es[..total])
    {
      var c := es[total].chunk;
      ghost var before := es[..total];
      assert es[..total + 1] == before + [es[total]];
      assert es[..total + 1][..|es[..total + 1]| - 1] == before;
      if c !in sizes { AbsentCountsZero(before, c); }
      sizes := sizes[c := (if c in sizes then sizes[c] else 0) + 1];
      total := total + 1;
    }
    assert es[..total] == es;
  }

  lemma {:induction false} AbsentCountsZero(es: seq<Entity>, c: Chunk)
    requires forall i :: 0 <= i < |es| ==> es[i].chunk != c
    ensures CountIn(es, c) == 0
  {
    if es == [] {
    } else {
      AbsentCountsZero(es[..|es| - 1], c);
    }
  }

  lemma SizedChunkOccurs(es: seq<Entity>, sizes: map<Chunk, nat>, c: Chunk)
    requires SizesOf(sizes, es) && c in sizes
    ensures exists i :: 0 <= i < |es| && es[i].chunk == c
  {
    var i := NthOfChunk(es, c, 0);
  }

  // ----- Where each chunk begins

  ghost predicate Listed(order: seq<Chunk>, c: Chunk) {
    exists i :: 0 <= i < |order| && order[i] == c
  }

  /** An iteration order of the map: its keys, each once. */
  ghost predicate OrderOf(order: seq<Chunk>, sizes: map<Chunk, nat>) {
    && (forall i :: 0 <= i < |order| ==> order[i] in sizes)
    && (forall c {:trigger Listed(order, c)} :: c in sizes ==> Listed(order, c))
    && (forall i, j :: 0 <= i < j < |order| ==> order[i] != order[j])
  }

  /** The sizes of the first `k` chunks together. */
  function SizeBefore(order: seq<Chunk>, sizes: map<Chunk, nat>, k: nat): nat
    requires k <= |order| && forall i :: 0 <= i < |order| ==> order[i] in sizes
  {
    if k == 0 then 0 else SizeBefore(order, sizes, k - 1) + sizes[order[k - 1]]
  }

  ghost predicate BeginsOf(begins: map<Chunk, nat>, order: seq<Chunk>, sizes: map<Chunk, nat>) {
    && OrderOf(order, sizes) && (forall c :: c in begins <==> c in sizes)
    && (forall k {:trigger begins[order[k]]} :: 0 <= k < |order| ==> begins[order[k]] == SizeBefore(order, sizes, k))
  }

  /** The keys visited so far, in order, and the keys left. */
  ghost predicate Visited(order: seq<Chunk>, left: set<Chunk>, all: set<Chunk>) {
    && left <= all
    && (forall i :: 0 <= i < |order| ==> order[i] in all && order[i] !in left)
    && (forall c {:trigger Listed(order, c)} :: c in all && c !in left ==> Listed(order, c))
    && (forall i, j :: 0 <= i < j < |order| ==> order[i] != order[j])
  }

  lemma ListedStill(order: seq<Chunk>, c: Chunk, d: Chunk)
    requires d == c || Listed(order, d)
    ensures Listed(order + [c], d)
  {
    var longer := order + [c];
    if d == c {
      assert longer[|order|] == d;
    } else {
      var i :| 0 <= i < |order| && order[i] == d;
      assert longer[i] == d;
    }
  }

  lemma VisitedOneMore(order: seq<Chunk>, left: set<Chunk>, all: set<Chunk>, c: Chunk)
    requires Visited(order, left, all) && c in left
    ensures Visited(order + [c], left - {c}, all)
  {
    var longer := order + [c];
    forall d | d in all && d !in left - {c} ensures Listed(longer, d) { ListedStill(order, c, d); }
  }

  lemma {:induction false} SizeBeforeOfLonger(order: seq<Chunk>, sizes: map<Chunk, nat>, c: Chunk, k: nat)
    requires k <= |order| && c in sizes && forall i :: 0 <= i < |order| ==> order[i] in sizes
    ensures SizeBefore(order + [c], sizes, k) == SizeBefore(order, sizes, k)
  {
    if k == 0 {
    } else {
      SizeBeforeOfLonger(order, sizes, c, k - 1);
    }
  }

  /** The begins of the chunks visited so far. */
  ghost predicate BeginsSoFar(begins: map<Chunk, nat>, order: seq<Chunk>, sizes: map<Chunk, nat>) {
    && (forall i :: 0 <= i < |order| ==> order[i] in sizes)
    && (forall c {:trigger Listed(order, c)} :: c in begins ==> Listed(order, c))
    && (forall k :: 0 <= k < |order| ==> order[k] in begins)
    && (forall k {:trigger begins[order[k]]} :: 0 <= k < |order| ==> begins[order[k]] == SizeBefore(order, sizes, k))
  }

  lemma BeginsOneMore(begins: map<Chunk, nat>, order: seq<Chunk>, sizes: map<Chunk, nat>, c: Chunk)
    requires BeginsSoFar(begins, order, sizes) && c in sizes
    requires forall i :: 0 <= i < |order| ==> order[i] != c
    ensures BeginsSoFar(begins[c := SizeBefore(order, sizes, |order|)], order + [c], sizes)
  {
    var longer, more := order + [c], begins[c := SizeBefore(order, sizes, |order|)];
    forall d | d in more ensures Listed(longer, d) { ListedStill(order, c, d); }
    forall k | 0 <= k < |longer| ensures longer[k] in more && more[longer[k]] == SizeBefore(longer, sizes, k) {
      BeginStays(begins, order, sizes, c, k);
    }
  }

  lemma BeginStays(begins: map<Chunk, nat>, order: seq<Chunk>, sizes: map<Chunk, nat>, c: Chunk, k: nat)
    requires c in sizes && (forall i :: 0 <= i < |order| ==> order[i] in sizes) && k <= |order|
    requires k < |order| ==> order[k] in begins && begins[order[k]] == SizeBefore(order, sizes, k) && order[k] != c
    ensures var longer, more := order + [c], begins[c := SizeBefore(order, sizes, |order|)];
            longer[k] in more && more[longer[k]] == SizeBefore(longer, sizes, k)
  {
    SizeBeforeOfLonger(order, sizes, c, k);
  }

  /** The loop over the size map, in any order: every chunk begins where the one visited
      before it ends. */
  method PlaceChunks(sizes: map<Chunk, nat>) returns (begins: map<Chunk, nat>, ghost order: seq<Chunk>)
    ensures BeginsOf(begins, order, sizes)
  {
    begins, order := map[], [];
    var curr, left := 0, sizes.Keys;
    while left != {}
      invariant Visited(order, left, sizes.Keys) && BeginsSoFar(begins, order, sizes)
      invariant curr == SizeBefore(order, sizes, |order|)
      decreases left
    {
      var c :| c in left;
      VisitedOneMore(order, left, sizes.Keys, c);
      BeginsOneMore(begins, order, sizes, c);
      SizeBeforeOfLonger(order, sizes, c, |order|);
      begins := begins[c := curr];
      curr := curr + sizes[c];
      order := order + [c];
      left := left - {c};
    }
    forall c | c in sizes ensures c in begins { assert Listed(order, c); }
    forall c | c in begins ensures c in sizes { assert Listed(order, c); }
  }

  lemma {:induction false} SizeBeforeMonotone(order: seq<Chunk>, sizes: map<Chunk, nat>, i: nat, j: nat)
    requires i < j <= |order| && forall k :: 0 <= k < |order| ==> order[k] in sizes
    ensures SizeBefore(order, sizes, i) + sizes[order[i]] <= SizeBefore(order, sizes, j)
    decreases j
  {
    if i == j - 1 {
    } else {
      SizeBeforeMonotone(order, sizes, i, j - 1);
    }
  }

  /** The ranges of two chunks do not meet. */
  lemma RangesDisjoint(begins: map<Chunk, nat>, order: seq<Chunk>, sizes: map<Chunk, nat>, c: Chunk, d: Chunk)
    requires BeginsOf(begins, order, sizes) && c in sizes && d in sizes && c != d
    ensures begins[c] + sizes[c] <= begins[d] || begins[d] + sizes[d] <= begins[c]
  {
    assert Listed(order, c) && Listed(order, d);
    var i :| 0 <= i < |order| && order[i] == c;
    var j :| 0 <= j < |order| && order[j] == d;
    if i < j { SizeBeforeMonotone(order, sizes, i, j); } else { SizeBeforeMonotone(order, sizes, j, i); }
  }

  function SumOfCounts(order: seq<Chunk>, es: seq<Entity>): nat {
    if order == [] then 0 else SumOfCounts(order[..|order| - 1], es) + CountIn(es, order[|order| - 1])
  }

  /** One more entity adds one to the sum, if its chunk is in the order. */
  lemma {:induction false} SumBump(order: seq<Chunk>, es: seq<Entity>, e: Entity)
    requires forall i, j :: 0 <= i < j < |order| ==> order[i] != order[j]
    ensures SumOfCounts(order, es + [e]) == SumOfCounts(order, es) + if e.chunk in order then 1 else 0
  {
    assert (es + [e])[..|es|] == es;
    if order == [] {
    } else {
      var n := |order| - 1;
      SumBump(order[..n], es, e);
      assert order == order[..n] + [order[n]];
    }
  }

  lemma {:induction false} SumIsLength(order: seq<Chunk>, es: seq<Entity>)
    requires forall i, j :: 0 <= i < j < |order| ==> order[i] != order[j]
    requires forall i :: 0 <= i < |es| ==> es[i].chunk in order
    ensures SumOfCounts(order, es) == |es|
  {
    if es == [] {
      SumOfNothing(order);
    } else {
      var n := |es| - 1;
      SumIsLength(order, es[..n]);
      assert es == es[..n] + [es[n]];
      SumBump(order, es[..n], es[n]);
    }
  }

  lemma {:induction false} SumOfNothing(order: seq<Chunk>)
    ensures SumOfCounts(order, []) == 0
  {
    if order == [] {
    } else {
      SumOfNothing(order[..|order| - 1]);
    }
  }

  lemma {:induction false} SizeBeforeIsSum(order: seq<Chunk>, sizes: map<Chunk, nat>, es: seq<Entity>, k: nat)
    requires OrderOf(order, sizes) && SizesOf(sizes, es) && k <= |order|
    ensures SizeBefore(order, sizes, k) == SumOfCounts(order[..k], es)
  {
    if k == 0 {
    } else {
      SizeBeforeIsSum(order, sizes, es, k - 1);
      assert order[..k][..k - 1] == order[..k - 1];
    }
  }

  /** All ranges lie within the buffer, which they fill. */
  lemma RangesFillBuffer(begins: map<Chunk, nat>, order: seq<Chunk>, sizes: map<Chunk, nat>, es: seq<Entity>, c: Chunk)
    requires BeginsOf(begins, order, sizes) && SizesOf(sizes, es)
    ensures SizeBefore(order, sizes, |order|) == |es|
    ensures c in sizes ==> begins[c] + sizes[c] <= |es|
  {
    SizeBeforeIsSum(order, sizes, es, |order|);
    assert order[..|order|] == order;
    forall i | 0 <= i < |es| ensures es[i].chunk in order { assert Listed(order, es[i].chunk); }
    SumIsLength(order, es);
    if c in sizes {
      assert Listed(order, c);
      var i :| 0 <= i < |order| && order[i] == c;
      SizeBeforeMonotone(order, sizes, i, |order|);
    }
  }

  // ----- Placing the entities

  /** The slot of entity `i`: its chunk's begin, plus the entities of the chunk before it. */
  ghost function SlotOf(begins: map<Chunk, nat>, es: seq<Entity>, i: nat): nat
    requires i < |es| && es[i].chunk in begins
  {
    begins[es[i].chunk] + CountIn(es[..i], es[i].chunk)
  }

  lemma {:induction false} CountGrows(es: seq<Entity>, i: nat, j: nat, c: Chunk)
    requires i < j <= |es| && es[i].chunk == c
    ensures CountIn(es[..i], c) < CountIn(es[..j], c)
    decreases j
  {
    assert es[..j][..j - 1] == es[..j - 1];
    if i == j - 1 {
    } else {
      CountGrows(es, i, j - 1, c);
    }
  }

  lemma SlotInRange(begins: map<Chunk, nat>, order: seq<Chunk>, sizes: map<Chunk, nat>, es: seq<Entity>, i: nat)
    requires BeginsOf(begins, order, sizes) && SizesOf(sizes, es) && i < |es|
    ensures var c := es[i].chunk;
            c in begins && c in sizes &&
            begins[c] <= SlotOf(begins, es, i) < begins[c] + sizes[c] && SlotOf(begins, es, i) < |es|
  {
    var c := es[i].chunk;
    assert c in sizes;
    CountGrows(es, i, |es|, c);
    assert es[..|es|] == es;
    RangesFillBuffer(begins, order, sizes, es, c);
  }

  /** No slot is written twice. */
  lemma SlotsDistinct(begins: map<Chunk, nat>, order: seq<Chunk>, sizes: map<Chunk, nat>, es: seq<Entity>, i: nat,
        j: nat)
    requires BeginsOf(begins, order, sizes) && SizesOf(sizes, es) && i < j < |es|
    ensures es[i].chunk in begins && es[j].chunk in begins && SlotOf(begins, es, i) != SlotOf(begins, es, j)
  {
    SlotInRange(begins, order, sizes, es, i);
    SlotInRange(begins, order, sizes, es, j);
    if es[i].chunk == es[j].chunk {
      CountGrows(es, i, j, es[i].chunk);
    } else {
      RangesDisjoint(begins, order, sizes, es[i].chunk, es[j].chunk);
    }
  }

  /** The `r`-th entity of a chunk. */
  lemma {:induction false} NthOfChunk(es: seq<Entity>, c: Chunk, r: nat) returns (i: nat)
    requires r < CountIn(es, c)
    ensures i < |es| && es[i].chunk == c && CountIn(es[..i], c) == r
    ensures |TransformsOf(es, c)| == CountIn(es, c) && TransformsOf(es, c)[r] == es[i].transform
  {
    var n := |es| - 1;
    TransformsCounted(es, c);
    TransformsCounted(es[..n], c);
    if r < CountIn(es[..n], c) {
      i := NthOfChunk(es[..n], c, r);
      assert es[..n][..i] == es[..i];
    } else {
      i := n;
    }
  }

  lemma {:induction false} TransformsCounted(es: seq<Entity>, c: Chunk)
    ensures |TransformsOf(es, c)| == CountIn(es, c)
  {
    if es == [] {
    } else {
      TransformsCounted(es[..|es| - 1], c);
    }
  }

  /** Every slot of the buffer is the slot of an entity. */
  lemma EverySlotWritten(begins: map<Chunk, nat>, order: seq<Chunk>, sizes: map<Chunk, nat>, es: seq<Entity>, x: nat)
    returns (i: nat)
    requires BeginsOf(begins, order, sizes) && SizesOf(sizes, es) && x < |es|
    ensures i < |es| && es[i].chunk in begins && SlotOf(begins, es, i) == x
  {
    if es != [] { RangesFillBuffer(begins, order, sizes, es, es[0].chunk); }
    var k := RangeContaining(order, sizes, |order|, x);
    var c := order[k];
    assert begins[c] == SizeBefore(order, sizes, k);
    i := NthOfChunk(es, c, x - begins[c]);
  }

  lemma {:induction false} RangeContaining(order: seq<Chunk>, sizes: map<Chunk, nat>, n: nat, x: nat) returns (k: nat)
    requires OrderOf(order, sizes) && n <= |order|
    requires forall i :: 0 <= i < |order| ==> order[i] in sizes
    requires x < SizeBefore(order, sizes, n)
    ensures k < n && SizeBefore(order, sizes, k) <= x < SizeBefore(order, sizes, k) + sizes[order[k]]
  {
    if x < SizeBefore(order, sizes, n - 1) { k := RangeContaining(order, sizes, n - 1, x); } else { k := n - 1; }
  }

  /** Every entity has a slot of its own in a buffer of `total` slots. */
  ghost predicate SlotsApart(es: seq<Entity>, begins: map<Chunk, nat>, total: nat) {
    && (forall i :: 0 <= i < |es| ==> es[i].chunk in begins)
    && (forall i {:trigger SlotOf(begins, es, i)} :: 0 <= i < |es| ==> SlotOf(begins, es, i) < total)
    && (forall i, j {:trigger SlotOf(begins, es, i), SlotOf(begins, es, j)} :: 0 <= i < j < |es| ==>
          SlotOf(begins, es, i) != SlotOf(begins, es, j))
  }

  lemma SlotsAreApart(begins: map<Chunk, nat>, order: seq<Chunk>, sizes: map<Chunk, nat>, es: seq<Entity>)
    requires BeginsOf(begins, order, sizes) && SizesOf(sizes, es)
    ensures SlotsApart(es, begins, |es|)
  {
    forall i | 0 <= i < |es| ensures es[i].chunk in begins && SlotOf(begins, es, i) < |es| {
      SlotInRange(begins, order, sizes, es, i);
    }
    forall i, j | 0 <= i < j < |es| ensures SlotOf(begins, es, i) != SlotOf(begins, es, j) {
      SlotsDistinct(begins, order, sizes, es, i, j);
    }
  }

  /** The first `n` entities are in their slots. */
  ghost predicate Placed(es: seq<Entity>, begins: map<Chunk, nat>, buffer: seq<int>, n: nat) {
    && n <= |es| && (forall i :: 0 <= i < n ==> es[i].chunk in begins)
    && forall i {:trigger SlotOf(begins, es, i)} :: 0 <= i < n ==>
         SlotOf(begins, es, i) < |buffer| && buffer[SlotOf(begins, es, i)] == es[i].transform
  }

  lemma PlacedOneMore(es: seq<Entity>, begins: map<Chunk, nat>, buffer: seq<int>, n: nat)
    requires SlotsApart(es, begins, |buffer|) && n < |es| && Placed(es, begins, buffer, n)
    ensures es[n].chunk in begins && SlotOf(begins, es, n) < |buffer|
    ensures Placed(es, begins, buffer[SlotOf(begins, es, n) := es[n].transform], n + 1)
  {
  }

  /** The running counters: each chunk's begin plus the entities of it placed so far. */
  ghost predicate NextSlots(next: map<Chunk, nat>, begins: map<Chunk, nat>, es: seq<Entity>) {
    next.Keys == begins.Keys && forall c :: c in begins ==> next[c] == begins[c] + CountIn(es, c)
  }

  lemma NextOneMore(next: map<Chunk, nat>, begins: map<Chunk, nat>, es: seq<Entity>, e: Entity)
    requires NextSlots(next, begins, es) && e.chunk in next
    ensures NextSlots(next[e.chunk := next[e.chunk] + 1], begins, es + [e])
  {
    assert (es + [e])[..|es|] == es;
  }

  lemma NextIsSlot(next: map<Chunk, nat>, begins: map<Chunk, nat>, es: seq<Entity>, n: nat)
    requires n < |es| && es[n].chunk in begins && NextSlots(next, begins, es[..n])
    ensures es[n].chunk in next && next[es[n].chunk] == SlotOf(begins, es, n)
    ensures NextSlots(next[es[n].chunk := next[es[n].chunk] + 1], begins, es[..n + 1])
  {
    NextOneMore(next, begins, es[..n], es[n]);
    assert es[..n + 1] == es[..n] + [es[n]];
  }

  /** The placement loop: afterwards every slot holds its entity's transform. */
  method PlaceEntities(es: seq<Entity>, begins: map<Chunk, nat>, buffer: array<int>)
    requires SlotsApart(es, begins, buffer.Length)
    modifies buffer
    ensures Placed(es, begins, buffer[..], |es|)
  {
    var next, n := begins, 0;
    while n < |es|
      invariant 0 <= n <= |es| && NextSlots(next, begins, es[..n])
      invariant Placed(es, begins, buffer[..], n)
    {
      PlacedOneMore(es, begins, buffer[..], n);
      NextIsSlot(next, begins, es, n);
      ghost var after := buffer[..][SlotOf(begins, es, n) := es[n].transform];
      var c := es[n].chunk;
      buffer[next[c]] := es[n].transform;
      assert buffer[..] == after;
      next := next[c := next[c] + 1];
      n := n + 1;
    }
  }

  // ----- The draws of each target

  function Repeated(d: Draw, times: nat): seq<Draw> {
    if times == 0 then [] else Repeated(d, times - 1) + [d]
  }

  function Occurrences(targets: seq<nat>, target: nat): nat {
    if targets == [] then 0
    else Occurrences(targets[..|targets| - 1], target) + if targets[|targets| - 1] == target then 1 else 0
  }

  function DrawOf(c: Chunk, begins: map<Chunk, nat>, sizes: map<Chunk, nat>): Draw
    requires c in begins && c in sizes
  {
    Draw(c.mesh, begins[c], sizes[c])
  }

  /** The draws a target gets: for every chunk one per occurrence in the chunk's set. */
  ghost function DrawsOf(chunks: seq<Chunk>, sets: map<nat, seq<nat>>, begins: map<Chunk, nat>,
        sizes: map<Chunk, nat>, target: nat): seq<Draw>
    requires Known(chunks, sets, begins, sizes)
  {
    if chunks == [] then []
    else
      var c := chunks[|chunks| - 1];
      DrawsOf(chunks[..|chunks| - 1], sets, begins, sizes, target) +
      Repeated(DrawOf(c, begins, sizes), Occurrences(sets[c.targetSet], target))
  }

  function DrawsAt(draws: map<nat, seq<Draw>>, target: nat): seq<Draw> {
    if target in draws then draws[target] else []
  }

  /** Every target has got draw `d` as often as it occurs in `targets`. */
  ghost predicate Drawn(before: map<nat, seq<Draw>>, draws: map<nat, seq<Draw>>, d: Draw, targets: seq<nat>) {
    forall target :: DrawsAt(draws, target) == DrawsAt(before, target) + Repeated(d, Occurrences(targets, target))
  }

  lemma DrawnAtOneMore(before: map<nat, seq<Draw>>, draws: map<nat, seq<Draw>>, d: Draw, targets: seq<nat>, t: nat,
        target: nat)
    requires DrawsAt(draws, target) == DrawsAt(before, target) + Repeated(d, Occurrences(targets, target))
    ensures DrawsAt(draws[t := DrawsAt(draws, t) + [d]], target) ==
            DrawsAt(before, target) + Repeated(d, Occurrences(targets + [t], target))
  {
    assert (targets + [t])[..|targets|] == targets;
    if t == target {
      var have, got := DrawsAt(before, target), Repeated(d, Occurrences(targets, target));
      assert (have + got) + [d] == have + (got + [d]);
    }
  }

  lemma DrawnOneMore(before: map<nat, seq<Draw>>, draws: map<nat, seq<Draw>>, d: Draw, targets: seq<nat>, t: nat)
    requires Drawn(before, draws, d, targets)
    ensures Drawn(before, draws[t := DrawsAt(draws, t) + [d]], d, targets + [t])
  {
    forall target
      ensures DrawsAt(draws[t := DrawsAt(draws, t) + [d]], target) ==
              DrawsAt(before, target) + Repeated(d, Occurrences(targets + [t], target))
    {
      DrawnAtOneMore(before, draws, d, targets, t, target);
    }
  }

  ghost predicate NoneEmpty(draws: map<nat, seq<Draw>>) {
    forall target :: target in draws ==> draws[target] != []
  }

  /** The inner loop: one more draw for each of the chunk's targets. */
  method AddDraws(before: map<nat, seq<Draw>>, d: Draw, targets: seq<nat>) returns (draws: map<nat, seq<Draw>>)
    requires NoneEmpty(before)
    ensures Drawn(before, draws, d, targets) && NoneEmpty(draws)
  {
    draws := before;
    var i := 0;
    while i < |targets|
      invariant 0 <= i <= |targets| && Drawn(before, draws, d, targets[..i]) && NoneEmpty(draws)
    {
      DrawnOneMore(before, draws, d, targets[..i], targets[i]);
      assert targets[..i + 1] == targets[..i] + [targets[i]];
      draws := draws[targets[i] := DrawsAt(draws, targets[i]) + [d]];
      i := i + 1;
    }
    assert targets[..i] == targets;
  }

  /** The chunks are those of the maps, and their target sets are known. */
  ghost predicate Known(chunks: seq<Chunk>, sets: map<nat, seq<nat>>, begins: map<Chunk, nat>, sizes: map<Chunk, nat>) {
    forall k :: 0 <= k < |chunks| ==> chunks[k] in begins && chunks[k] in sizes && chunks[k].targetSet in sets
  }

  /** All targets have the draws of the chunks visited so far. */
  ghost predicate Collected(draws: map<nat, seq<Draw>>, chunks: seq<Chunk>, sets: map<nat, seq<nat>>,
        begins: map<Chunk, nat>, sizes: map<Chunk, nat>)
  {
    && Known(chunks, sets, begins, sizes)
    && forall target :: DrawsAt(draws, target) == DrawsOf(chunks, sets, begins, sizes, target)
  }

  lemma CollectedOneMore(draws: map<nat, seq<Draw>>, more: map<nat, seq<Draw>>, chunks: seq<Chunk>, c: Chunk,
        sets: map<nat, seq<nat>>, begins: map<Chunk, nat>, sizes: map<Chunk, nat>)
    requires Collected(draws, chunks, sets, begins, sizes)
    requires c in begins && c in sizes && c.targetSet in sets
    requires Drawn(draws, more, DrawOf(c, begins, sizes), sets[c.targetSet])
    ensures Collected(more, chunks + [c], sets, begins, sizes)
  {
    assert (chunks + [c])[..|chunks|] == chunks;
  }

  /** The loop over the begins, in any order, and each chunk's targets. */
  method CollectDraws(sets: map<nat, seq<nat>>, begins: map<Chunk, nat>, sizes: map<Chunk, nat>)
    returns (draws: map<nat, seq<Draw>>, ghost chunks: seq<Chunk>)
    requires forall c :: c in begins ==> c in sizes && c.targetSet in sets
    ensures OrderOf(chunks, begins) && Collected(draws, chunks, sets, begins, sizes) && NoneEmpty(draws)
  {
    draws, chunks := map[], [];
    var left := begins.Keys;
    while left != {}
      invariant Visited(chunks, left, begins.Keys) && Collected(draws, chunks, sets, begins, sizes) && NoneEmpty(draws)
      decreases left
    {
      var c :| c in left;
      VisitedOneMore(chunks, left, begins.Keys, c);
      var more := AddDraws(draws, DrawOf(c, begins, sizes), sets[c.targetSet]);
      CollectedOneMore(draws, more, chunks, c, sets, begins, sizes);
      draws, chunks, left := more, chunks + [c], left - {c};
    }
  }

  predicate Covers(d: Draw, slot: nat) { d.offset <= slot < d.offset + d.count }

  /** How many draws of the list draw the slot. */
  ghost function Covering(draws: seq<Draw>, slot: nat): nat {
    if draws == [] then 0
    else Covering(draws[..|draws| - 1], slot) + if Covers(draws[|draws| - 1], slot) then 1 else 0
  }

  lemma {:induction false} CoveringConcat(a: seq<Draw>, b: seq<Draw>, slot: nat)
    ensures Covering(a + b, slot) == Covering(a, slot) + Covering(b, slot)
  {
    if b == [] { assert a + b == a; }
    else {
      var n := |b| - 1;
      CoveringConcat(a, b[..n], slot);
      assert (a + b)[..|a + b| - 1] == a + b[..n];
    }
  }

  lemma {:induction false} CoveringRepeated(d: Draw, times: nat, slot: nat)
    ensures Covering(Repeated(d, times), slot) == if Covers(d, slot) then times else 0
  {
    if times == 0 {
    } else {
      CoveringRepeated(d, times - 1, slot);
      CoveringConcat(Repeated(d, times - 1), [d], slot);
      assert [d][..0] == [] && Covering([d], slot) == if Covers(d, slot) then 1 else 0;
    }
  }

  /** A chunk's slot is covered once per occurrence of the target in the chunk's set, by
      the chunk's own draws; `p` is the chunk's place in the order, if it has one. */
  lemma {:induction false} CoveringDraws(chunks: seq<Chunk>, sets: map<nat, seq<nat>>, begins: map<Chunk, nat>,
        order: seq<Chunk>, sizes: map<Chunk, nat>, target: nat, c: Chunk, p: nat, slot: nat)
    requires BeginsOf(begins, order, sizes) && c in sizes && c.targetSet in sets
    requires begins[c] <= slot < begins[c] + sizes[c]
    requires Known(chunks, sets, begins, sizes)
    requires forall k :: 0 <= k < |chunks| ==> (chunks[k] == c <==> k == p)
    ensures Covering(DrawsOf(chunks, sets, begins, sizes, target), slot) ==
            if p < |chunks| then Occurrences(sets[c.targetSet], target) else 0
  {
    if chunks == [] {
    } else {
      var n := |chunks| - 1;
      CoveringDraws(chunks[..n], sets, begins, order, sizes, target, c, p, slot);
      CoveringOneMore(chunks, sets, begins, order, sizes, target, c, slot);
    }
  }

  lemma CoveringOneMore(chunks: seq<Chunk>, sets: map<nat, seq<nat>>, begins: map<Chunk, nat>, order: seq<Chunk>,
        sizes: map<Chunk, nat>, target: nat, c: Chunk, slot: nat)
    requires BeginsOf(begins, order, sizes) && c in sizes && c.targetSet in sets
    requires begins[c] <= slot < begins[c] + sizes[c]
    requires chunks != [] && Known(chunks, sets, begins, sizes)
    ensures var n := |chunks| - 1;
            Covering(DrawsOf(chunks, sets, begins, sizes, target), slot) ==
            Covering(DrawsOf(chunks[..n], sets, begins, sizes, target), slot) +
            if chunks[n] == c then Occurrences(sets[c.targetSet], target) else 0
  {
    var n := |chunks| - 1;
    var d := chunks[n];
    var draw, times := DrawOf(d, begins, sizes), Occurrences(sets[d.targetSet], target);
    CoveringConcat(DrawsOf(chunks[..n], sets, begins, sizes, target), Repeated(draw, times), slot);
    CoveringRepeated(draw, times, slot);
    OnlyOwnDrawCovers(begins, order, sizes, c, d, slot);
  }

  lemma OnlyOwnDrawCovers(begins: map<Chunk, nat>, order: seq<Chunk>, sizes: map<Chunk, nat>, c: Chunk, d: Chunk,
        slot: nat)
    requires BeginsOf(begins, order, sizes) && c in sizes && d in sizes && begins[c] <= slot < begins[c] + sizes[c]
    ensures Covers(DrawOf(d, begins, sizes), slot) <==> c == d
  {
    if d != c { RangesDisjoint(begins, order, sizes, c, d); }
  }

  // ----- Which mesh is drawn

  /** How many draws of the list draw the slot with the given mesh. */
  ghost function CoveringWith(draws: seq<Draw>, mesh: nat, slot: nat): nat {
    if draws == [] then 0
    else CoveringWith(draws[..|draws| - 1], mesh, slot) +
         if Covers(draws[|draws| - 1], slot) && draws[|draws| - 1].mesh == mesh then 1 else 0
  }

  /** Whatever draws the slot draws it with that mesh. */
  ghost predicate OnlyWith(draws: seq<Draw>, mesh: nat, slot: nat) {
    forall k :: 0 <= k < |draws| && Covers(draws[k], slot) ==> draws[k].mesh == mesh
  }

  lemma {:induction false} OnlyWithCounts(draws: seq<Draw>, mesh: nat, slot: nat)
    requires OnlyWith(draws, mesh, slot)
    ensures CoveringWith(draws, mesh, slot) == Covering(draws, slot)
  {
    if draws == [] {
    } else {
      OnlyWithCounts(draws[..|draws| - 1], mesh, slot);
    }
  }

  lemma {:induction false} RepeatedIs(d: Draw, times: nat)
    ensures forall k :: 0 <= k < |Repeated(d, times)| ==> Repeated(d, times)[k] == d
  {
    if times == 0 {
    } else {
      RepeatedIs(d, times - 1);
    }
  }

  /** The draws that cover a chunk's slot are draws of the chunk's mesh. */
  lemma {:induction false} DrawsWithOwnMesh(chunks: seq<Chunk>, sets: map<nat, seq<nat>>, begins: map<Chunk, nat>,
        order: seq<Chunk>, sizes: map<Chunk, nat>, target: nat, c: Chunk, slot: nat)
    requires BeginsOf(begins, order, sizes) && c in sizes && begins[c] <= slot < begins[c] + sizes[c]
    requires Known(chunks, sets, begins, sizes)
    ensures OnlyWith(DrawsOf(chunks, sets, begins, sizes, target), c.mesh, slot)
  {
    if chunks == [] {
    } else {
      var n := |chunks| - 1;
      var d := chunks[n];
      DrawsWithOwnMesh(chunks[..n], sets, begins, order, sizes, target, c, slot);
      RepeatedIs(DrawOf(d, begins, sizes), Occurrences(sets[d.targetSet], target));
      OnlyOwnDrawCovers(begins, order, sizes, c, d, slot);
    }
  }

  /** Every draw draws something, and nothing beyond the `total` slots. */
  ghost predicate DrawsInside(draws: seq<Draw>, total: nat) {
    forall k :: 0 <= k < |draws| ==> 0 < draws[k].count && draws[k].offset + draws[k].count <= total
  }

  lemma {:induction false} DrawsStayInside(chunks: seq<Chunk>, sets: map<nat, seq<nat>>, begins: map<Chunk, nat>,
        order: seq<Chunk>, sizes: map<Chunk, nat>, es: seq<Entity>, target: nat)
    requires BeginsOf(begins, order, sizes) && SizesOf(sizes, es) && Known(chunks, sets, begins, sizes)
    ensures DrawsInside(DrawsOf(chunks, sets, begins, sizes, target), |es|)
  {
    if chunks == [] {
    } else {
      var n := |chunks| - 1;
      DrawsStayInside(chunks[..n], sets, begins, order, sizes, es, target);
      RepeatedIs(DrawOf(chunks[n], begins, sizes), Occurrences(sets[chunks[n].targetSet], target));
      RangesFillBuffer(begins, order, sizes, es, chunks[n]);
    }
  }

  // ----- The whole frame

  /** A target draws entity `i` with its own mesh, once per occurrence of the target in the
      entity's set, and never with another mesh. */
  ghost predicate DrawnRight(es: seq<Entity>, sets: map<nat, seq<nat>>, begins: map<Chunk, nat>,
        draws: map<nat, seq<Draw>>, i: nat, target: nat)
  {
    && i < |es| && es[i].chunk in begins && es[i].chunk.targetSet in sets
    && var drawn, slot, mesh := DrawsAt(draws, target), SlotOf(begins, es, i), es[i].chunk.mesh;
       CoveringWith(drawn, mesh, slot) == Occurrences(sets[es[i].chunk.targetSet], target)
       && OnlyWith(drawn, mesh, slot)
  }

  lemma EntityDrawnRight(es: seq<Entity>, sets: map<nat, seq<nat>>, begins: map<Chunk, nat>, order: seq<Chunk>,
        sizes: map<Chunk, nat>, draws: map<nat, seq<Draw>>, chunks: seq<Chunk>, i: nat, target: nat)
    requires BeginsOf(begins, order, sizes) && SizesOf(sizes, es) && i < |es| && es[i].chunk.targetSet in sets
    requires OrderOf(chunks, begins) && Collected(draws, chunks, sets, begins, sizes)
    ensures DrawnRight(es, sets, begins, draws, i, target)
  {
    var c := es[i].chunk;
    SlotInRange(begins, order, sizes, es, i);
    assert Listed(chunks, c);
    var p :| 0 <= p < |chunks| && chunks[p] == c;
    var slot := SlotOf(begins, es, i);
    CoveringDraws(chunks, sets, begins, order, sizes, target, c, p, slot);
    DrawsWithOwnMesh(chunks, sets, begins, order, sizes, target, c, slot);
    OnlyWithCounts(DrawsAt(draws, target), c.mesh, slot);
  }

  /** The grouping part of a frame: count, place the chunks, collect the draws, place the
      entities. */
  method GroupFrame(es: seq<Entity>, sets: map<nat, seq<nat>>, buffer: array<int>)
    returns (draws: map<nat, seq<Draw>>, ghost begins: map<Chunk, nat>, ghost order: seq<Chunk>,
        ghost sizes: map<Chunk, nat>, ghost chunks: seq<Chunk>)
    requires buffer.Length == |es| && forall i :: 0 <= i < |es| ==> es[i].chunk.targetSet in sets
    modifies buffer
    ensures BeginsOf(begins, order, sizes) && SizesOf(sizes, es)
    ensures Placed(es, begins, buffer[..], |es|)
    ensures OrderOf(chunks, begins) && Collected(draws, chunks, sets, begins, sizes) && NoneEmpty(draws)
    ensures forall i, target :: 0 <= i < |es| ==> DrawnRight(es, sets, begins, draws, i, target)
    ensures forall target :: target in draws ==> DrawsInside(draws[target], |es|)
  {
    var counted, total := CountChunks(es);
    var starts, places := PlaceChunks(counted);
    begins, order, sizes := starts, places, counted;
    forall c | c in starts ensures c in counted && c.targetSet in sets { SizedChunkOccurs(es, counted, c); }
    draws, chunks := CollectDraws(sets, starts, counted);
    SlotsAreApart(starts, order, sizes, es);
    PlaceEntities(es, starts, buffer);
    forall i, target | 0 <= i < |es| ensures DrawnRight(es, sets, begins, draws, i, target) {
      EntityDrawnRight(es, sets, begins, order, sizes, draws, chunks, i, target);
    }
    forall target | target in draws ensures DrawsInside(draws[target], |es|) {
      DrawsStayInside(chunks, sets, begins, order, sizes, es, target);
    }
  }

  lemma PlacedAt(es: seq<Entity>, begins: map<Chunk, nat>, buffer: seq<int>, i: nat, r: nat)
    requires Placed(es, begins, buffer, |es|) && i < |es| && CountIn(es[..i], es[i].chunk) == r
    ensures es[i].chunk in begins && begins[es[i].chunk] + r < |buffer|
    ensures buffer[begins[es[i].chunk] + r] == es[i].transform
  {
    assert SlotOf(begins, es, i) == begins[es[i].chunk] + r;
  }

  lemma RankHoldsTransform(es: seq<Entity>, begins: map<Chunk, nat>, buffer: seq<int>, c: Chunk, r: nat)
    requires Placed(es, begins, buffer, |es|) && c in begins && r < CountIn(es, c)
    ensures |TransformsOf(es, c)| == CountIn(es, c)
    ensures begins[c] + r < |buffer| && buffer[begins[c] + r] == TransformsOf(es, c)[r]
  {
    var i := NthOfChunk(es, c, r);
    PlacedAt(es, begins, buffer, i, r);
  }

  lemma RangeIs(buffer: seq<int>, from: nat, run: seq<int>)
    requires from + |run| <= |buffer| && forall r :: 0 <= r < |run| ==> buffer[from + r] == run[r]
    ensures buffer[from..from + |run|] == run
  {
  }

  lemma RunHolds(es: seq<Entity>, begins: map<Chunk, nat>, buffer: seq<int>, c: Chunk)
    requires Placed(es, begins, buffer, |es|) && c in begins && begins[c] + CountIn(es, c) <= |buffer|
    ensures buffer[begins[c]..begins[c] + CountIn(es, c)] == TransformsOf(es, c)
  {
    TransformsCounted(es, c);
    var run, from := TransformsOf(es, c), begins[c];
    forall r | 0 <= r < |run| ensures buffer[from + r] == run[r] { RankHoldsTransform(es, begins, buffer, c, r); }
    RangeIs(buffer, from, run);
  }

  lemma RangeFits(es: seq<Entity>, begins: map<Chunk, nat>, order: seq<Chunk>, sizes: map<Chunk, nat>, c: Chunk)
    requires BeginsOf(begins, order, sizes) && SizesOf(sizes, es) && c in sizes
    ensures c in begins && sizes[c] == CountIn(es, c) && begins[c] + CountIn(es, c) <= |es|
  {
    RangesFillBuffer(begins, order, sizes, es, c);
  }

  /** The range of a draw holds exactly the entities of its chunk, in entity order. */
  lemma RangeHoldsChunk(es: seq<Entity>, begins: map<Chunk, nat>, order: seq<Chunk>, sizes: map<Chunk, nat>,
        buffer: seq<int>, c: Chunk)
    requires BeginsOf(begins, order, sizes) && SizesOf(sizes, es) && |buffer| == |es| && c in sizes
    requires Placed(es, begins, buffer, |es|)
    ensures begins[c] + sizes[c] <= |buffer| && buffer[begins[c]..begins[c] + sizes[c]] == TransformsOf(es, c)
  {
    RangeFits(es, begins, order, sizes, c);
    RunHolds(es, begins, buffer, c);
  }
}
