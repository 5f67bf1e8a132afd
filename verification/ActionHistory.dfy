/** The merge of the histories of several actions into one list ordered by time. */
module ActionHistories {
  import opened Options

  /** A recorded state; the vector is opaque. */
  datatype State = State(vector: int, timepoint: int)

  /** A handle: whether its type is that of actions, and its index. */
  datatype Handle = Handle(isAction: bool, index: nat)

  /** One merged record, naming the action by its handle. */
  datatype Record = Record(action: nat, state: State)

  datatype Outcome = Success | InvalidValue

  /** The handle table, and the history of every entry. Several handles may name one entry. */
  datatype World = World(actions: map<nat, nat>, histories: map<nat, seq<State>>) {
    ghost predicate Sound() { forall h :: h in actions ==> actions[h] in histories }

    predicate Knows(f: Handle) { f.isAction && f.index in actions }

    /** The history of the entry a handle names. */
    function HistoryOf(h: nat): seq<State> {
      if h in actions && actions[h] in histories then histories[actions[h]] else []
    }
  }

  ghost predicate Known(fs: seq<Handle>, w: World) {
    w.Sound() && forall i :: 0 <= i < |fs| ==> w.Knows(fs[i])
  }

  // ----- The filters

  /** What the size query reports: every filter counts, aliases again and again. */
  function Reported(fs: seq<Handle>, w: World): nat {
    if fs == [] then 0 else Reported(fs[..|fs| - 1], w) + |w.HistoryOf(fs[|fs| - 1].index)|
  }

  ghost predicate Aliased(keys: seq<nat>, w: World, h: nat) {
    h in w.actions && exists i :: 0 <= i < |keys| && keys[i] in w.actions && w.actions[keys[i]] == w.actions[h]
  }

  /** For each distinct entry the first of its handles in the filter. */
  ghost function FirstHandles(fs: seq<Handle>, w: World): seq<nat> {
    if fs == [] then []
    else
      var keys, h := FirstHandles(fs[..|fs| - 1], w), fs[|fs| - 1].index;
      if Aliased(keys, w, h) then keys else keys + [h]
  }

  /** Handles of distinct entries. */
  ghost predicate Distinct(keys: seq<nat>, w: World) {
    && (forall i :: 0 <= i < |keys| ==> keys[i] in w.actions)
    && (forall i, j :: 0 <= i < j < |keys| ==> w.actions[keys[i]] != w.actions[keys[j]])
  }

  ghost predicate Among(fs: seq<Handle>, h: nat) { exists i :: 0 <= i < |fs| && fs[i].index == h }

  /** The first handles name distinct entries, and every entry of the filter is named. */
  lemma {:induction false} FirstHandlesRepresent(fs: seq<Handle>, w: World)
    requires Known(fs, w)
    ensures Distinct(FirstHandles(fs, w), w)
    ensures forall i :: 0 <= i < |fs| ==> Aliased(FirstHandles(fs, w), w, fs[i].index)
  {
    if fs == [] {
    } else {
      var n := |fs| - 1;
      FirstHandlesRepresent(fs[..n], w);
      var keys, h := FirstHandles(fs[..n], w), fs[n].index;
      forall i | 0 <= i < n ensures Aliased(FirstHandles(fs, w), w, fs[i].index) {
        assert Aliased(keys, w, fs[..n][i].index);
        AliasedStill(keys, w, h, fs[i].index);
      }
      if !Aliased(keys, w, h) { AliasedStill(keys, w, h, h); }
    }
  }

  lemma AliasedStill(keys: seq<nat>, w: World, h: nat, g: nat)
    requires Aliased(keys, w, g) || (g == h && h in w.actions)
    ensures Aliased(keys + [h], w, g)
  {
    var longer := keys + [h];
    if Aliased(keys, w, g) {
      var j :| 0 <= j < |keys| && keys[j] in w.actions && w.actions[keys[j]] == w.actions[g];
      assert longer[j] == keys[j];
    } else {
      assert longer[|keys|] == g;
    }
  }

  /** All first handles come from the filter. */
  lemma {:induction false} FirstHandlesAmong(fs: seq<Handle>, w: World, k: nat)
    requires k < |FirstHandles(fs, w)|
    ensures Among(fs, FirstHandles(fs, w)[k])
  {
    var n := |fs| - 1;
    var keys := FirstHandles(fs[..n], w);
    if k < |keys| {
      FirstHandlesAmong(fs[..n], w, k);
      var i :| 0 <= i < n && fs[..n][i].index == keys[k];
      assert fs[i].index == keys[k];
    } else {
      assert fs[n].index == FirstHandles(fs, w)[k];
    }
  }

  /** The records of the handles' entries together. */
  ghost function Needed(keys: seq<nat>, w: World): nat {
    if keys == [] then 0 else Needed(keys[..|keys| - 1], w) + |w.HistoryOf(keys[|keys| - 1])|
  }

  ghost function NeededFor(fs: seq<Handle>, w: World): nat { Needed(FirstHandles(fs, w), w) }

  ghost predicate RepeatsNothing(fs: seq<Handle>, w: World)
    requires Known(fs, w)
  {
    forall i, j :: 0 <= i < j < |fs| && w.actions[fs[i].index] == w.actions[fs[j].index] ==>
        w.HistoryOf(fs[j].index) == []
  }

  /** The copy writes at most as many records as the query reports, and just as many
      exactly when every entry that is named twice has an empty history. */
  lemma {:induction false} NeededAgainstReported(fs: seq<Handle>, w: World)
    requires Known(fs, w)
    ensures NeededFor(fs, w) <= Reported(fs, w)
    ensures NeededFor(fs, w) == Reported(fs, w) <==> RepeatsNothing(fs, w)
  {
    if fs == [] {
    } else {
      var n := |fs| - 1;
      NeededAgainstReported(fs[..n], w);
      FirstHandlesRepresent(fs[..n], w);
      var keys, h := FirstHandles(fs[..n], w), fs[n].index;
      assert (keys + [h])[..|keys|] == keys;
      RepeatsOneMore(fs, w);
    }
  }

  /** A filter of two handles of one entry: the query reports every record of it twice. */
  lemma AliasCountsTwice(w: World, f: Handle, g: Handle)
    requires w.Sound() && w.Knows(f) && w.Knows(g) && w.actions[f.index] == w.actions[g.index]
    requires w.HistoryOf(f.index) != []
    ensures Reported([f, g], w) == 2 * |w.HistoryOf(f.index)| && NeededFor([f, g], w) < Reported([f, g], w)
  {
    var fs := [f, g];
    assert w.Knows(fs[0]) && w.Knows(fs[1]);
    assert fs[..1] == [f] && [f][..0] == [];
    assert Reported([f], w) == |w.HistoryOf(f.index)|;
    assert !RepeatsNothing(fs, w) by { assert w.actions[fs[0].index] == w.actions[fs[1].index]; }
    NeededAgainstReported(fs, w);
  }

  lemma RepeatsOneMore(fs: seq<Handle>, w: World)
    requires Known(fs, w) && fs != []
    ensures var n := |fs| - 1;
            RepeatsNothing(fs, w) <==>
            RepeatsNothing(fs[..n], w) &&
            (Aliased(FirstHandles(fs[..n], w), w, fs[n].index) ==> w.HistoryOf(fs[n].index) == [])
  {
    var n := |fs| - 1;
    var keys, h := FirstHandles(fs[..n], w), fs[n].index;
    LastRepeats(fs, w);
    if RepeatsNothing(fs, w) {
      forall i, j | 0 <= i < j < n && w.actions[fs[..n][i].index] == w.actions[fs[..n][j].index]
        ensures w.HistoryOf(fs[..n][j].index) == []
      {
        assert w.actions[fs[i].index] == w.actions[fs[j].index];
      }
    }
    if RepeatsNothing(fs[..n], w) && (Aliased(keys, w, h) ==> w.HistoryOf(h) == []) {
      forall i, j | 0 <= i < j < |fs| && w.actions[fs[i].index] == w.actions[fs[j].index]
        ensures w.HistoryOf(fs[j].index) == []
      {
        if j < n { assert fs[..n][i] == fs[i] && fs[..n][j] == fs[j]; }
      }
    }
  }

  /** The last filter is an alias of the first handles iff an earlier filter names its entry. */
  lemma LastRepeats(fs: seq<Handle>, w: World)
    requires Known(fs, w) && fs != []
    ensures var n := |fs| - 1;
            Aliased(FirstHandles(fs[..n], w), w, fs[n].index) <==>
            exists i :: 0 <= i < n && w.actions[fs[i].index] == w.actions[fs[n].index]
  {
    var n := |fs| - 1;
    FirstHandlesRepresent(fs[..n], w);
    var keys, h := FirstHandles(fs[..n], w), fs[n].index;
    if Aliased(keys, w, h) {
      var k :| 0 <= k < |keys| && keys[k] in w.actions && w.actions[keys[k]] == w.actions[h];
      FirstHandlesAmong(fs[..n], w, k);
      var i :| 0 <= i < n && fs[..n][i].index == keys[k];
      assert w.actions[fs[i].index] == w.actions[fs[n].index];
    } else {
      forall i | 0 <= i < n ensures w.actions[fs[i].index] != w.actions[h] {
        assert Aliased(keys, w, fs[..n][i].index);
      }
    }
  }

  // ----- The merge

  /** What is left to copy of the histories: handles of exhausted histories are gone. */
  type Queues = map<nat, seq<State>>

  function Queue(qs: Queues, h: nat): seq<State> { if h in qs then qs[h] else [] }

  predicate NoneExhausted(qs: Queues) { forall h :: h in qs ==> qs[h] != [] }

  /** The queue's front is taken; an exhausted queue is dropped. */
  function Advanced(qs: Queues, h: nat): Queues {
    if h !in qs then qs else if |qs[h]| <= 1 then qs - {h} else qs[h := qs[h][1..]]
  }

  predicate Earliest(qs: Queues, h: nat) {
    h in qs && NoneExhausted(qs) && forall k :: k in qs ==> qs[h][0].timepoint <= qs[k][0].timepoint
  }

  /** What is left once `out` is written. */
  function Left(start: Queues, out: seq<Record>): Queues {
    if out == [] then start else Advanced(Left(start, out[..|out| - 1]), out[|out| - 1].action)
  }

  /** One round: a queue with the earliest front gives up its front. */
  ghost predicate Takes(before: Queues, r: Record) {
    Earliest(before, r.action) && r.state == before[r.action][0]
  }

  /** Every record of `out` is written by such a round. */
  ghost predicate Merged(start: Queues, out: seq<Record>) {
    out == [] || (Merged(start, out[..|out| - 1]) && Takes(Left(start, out[..|out| - 1]), out[|out| - 1]))
  }

  /** The records of one handle, in the order written. */
  function RecordsOf(out: seq<Record>, h: nat): seq<State> {
    if out == [] then []
    else RecordsOf(out[..|out| - 1], h) + if out[|out| - 1].action == h then [out[|out| - 1].state] else []
  }

  lemma TakesFront(before: Queues, r: Record, h: nat)
    requires Takes(before, r)
    ensures Queue(before, h) == (if r.action == h then [r.state] else []) + Queue(Advanced(before, r.action), h)
  {
  }

  /** Nothing is lost or reordered: what has been written of a history, followed by what
      is left of it, is the history. */
  lemma {:induction false} MergeInterleaves(start: Queues, out: seq<Record>, h: nat)
    requires Merged(start, out)
    ensures RecordsOf(out, h) + Queue(Left(start, out), h) == Queue(start, h)
  {
    if out == [] {
    } else {
      var n := |out| - 1;
      MergeInterleaves(start, out[..n], h);
      var prev := Left(start, out[..n]);
      TakesFront(prev, out[n], h);
      var taken := if out[n].action == h then [out[n].state] else [];
      assert RecordsOf(out[..n], h) + (taken + Queue(Left(start, out), h)) ==
          (RecordsOf(out[..n], h) + taken) + Queue(Left(start, out), h);
    }
  }

  ghost predicate InOrder(history: seq<State>) {
    forall i, j :: 0 <= i < j < |history| ==> history[i].timepoint <= history[j].timepoint
  }

  ghost predicate AllInOrder(qs: Queues) { NoneExhausted(qs) && forall h :: h in qs ==> InOrder(qs[h]) }

  ghost predicate TimeOrdered(out: seq<Record>) {
    forall i, j :: 0 <= i < j < |out| ==> out[i].state.timepoint <= out[j].state.timepoint
  }

  /** Every front is at least as late as all that is written. */
  ghost predicate FrontsLater(out: seq<Record>, left: Queues) {
    NoneExhausted(left) && forall i, h :: 0 <= i < |out| && h in left ==> out[i].state.timepoint <= left[h][0].timepoint
  }

  lemma TakesKeepsOrder(before: Queues, r: Record)
    requires Takes(before, r) && AllInOrder(before)
    ensures var after := Advanced(before, r.action);
            AllInOrder(after) && forall h :: h in after ==>
              h in before && before[h][0].timepoint <= after[h][0].timepoint
                  && r.state.timepoint <= after[h][0].timepoint
  {
    var after: Queues := Advanced(before, r.action);
    forall h | h in after
      ensures after[h] != [] && InOrder(after[h]) && h in before && before[h][0].timepoint <= after[h][0].timepoint
    {
      if h == r.action { assert after[h] == before[h][1..]; }
    }
  }

  /** Histories in time order merge into a list in time order. */
  lemma {:induction false} MergeIsTimeOrdered(start: Queues, out: seq<Record>)
    requires Merged(start, out) && AllInOrder(start)
    ensures TimeOrdered(out) && AllInOrder(Left(start, out)) && FrontsLater(out, Left(start, out))
  {
    if out == [] {
    } else {
      var n := |out| - 1;
      MergeIsTimeOrdered(start, out[..n]);
      var prev := Left(start, out[..n]);
      TakesKeepsOrder(prev, out[n]);
      forall i | 0 <= i < n ensures out[i].state.timepoint <= out[n].state.timepoint { assert out[..n][i] == out[i]; }
    }
  }

  // ----- The records left to write

  /** The records left in the queues of the listed handles. */
  ghost function Total(keys: seq<nat>, qs: Queues): nat {
    if keys == [] then 0 else Total(keys[..|keys| - 1], qs) + |Queue(qs, keys[|keys| - 1])|
  }

  /** The list names every queue once. */
  ghost predicate Lists(keys: seq<nat>, qs: Queues) {
    && (forall i, j :: 0 <= i < j < |keys| ==> keys[i] != keys[j])
    && (forall h :: h in qs ==> exists i :: 0 <= i < |keys| && keys[i] == h)
  }

  lemma {:induction false} TotalOfSame(keys: seq<nat>, qs: Queues, qs': Queues)
    requires forall i :: 0 <= i < |keys| ==> |Queue(qs, keys[i])| == |Queue(qs', keys[i])|
    ensures Total(keys, qs) == Total(keys, qs')
  {
    if keys == [] {
    } else {
      TotalOfSame(keys[..|keys| - 1], qs, qs');
    }
  }

  lemma {:induction false} TotalOneLess(keys: seq<nat>, before: Queues, r: Record, at: nat)
    requires Takes(before, r) && at < |keys| && keys[at] == r.action
    requires forall i, j :: 0 <= i < j < |keys| ==> keys[i] != keys[j]
    ensures Total(keys, Advanced(before, r.action)) == Total(keys, before) - 1
  {
    var n, after := |keys| - 1, Advanced(before, r.action);
    TakesFront(before, r, keys[n]);
    if at == n {
      forall i | 0 <= i < n ensures |Queue(before, keys[..n][i])| == |Queue(after, keys[..n][i])| {
        TakesFront(before, r, keys[i]);
      }
      TotalOfSame(keys[..n], before, after);
    } else {
      TotalOneLess(keys[..n], before, r, at);
    }
  }

  lemma TakesKeepsLists(keys: seq<nat>, before: Queues, r: Record)
    requires Takes(before, r) && Lists(keys, before)
    ensures var after := Advanced(before, r.action);
            Lists(keys, after) && NoneExhausted(after) && Total(keys, after) == Total(keys, before) - 1
  {
    var at :| 0 <= at < |keys| && keys[at] == r.action;
    TotalOneLess(keys, before, r, at);
  }

  lemma {:induction false} NoQueueNoTotal(keys: seq<nat>)
    ensures Total(keys, map[]) == 0
  {
    if keys == [] {
    } else {
      NoQueueNoTotal(keys[..|keys| - 1]);
    }
  }

  lemma {:induction false} TotalCoversQueue(keys: seq<nat>, qs: Queues, at: nat)
    requires at < |keys|
    ensures |Queue(qs, keys[at])| <= Total(keys, qs)
  {
    var n := |keys| - 1;
    if at == n {
    } else {
      TotalCoversQueue(keys[..n], qs, at);
    }
  }

  /** There is a queue to take from exactly while there are records to write. */
  lemma QueuesLeftIff(keys: seq<nat>, qs: Queues)
    requires Lists(keys, qs) && NoneExhausted(qs)
    ensures qs != map[] <==> Total(keys, qs) > 0
  {
    if qs == map[] {
      NoQueueNoTotal(keys);
    } else {
      var h :| h in qs;
      var at :| 0 <= at < |keys| && keys[at] == h;
      TotalCoversQueue(keys, qs, at);
    }
  }

  lemma {:induction false} EarliestExists(qs: Queues)
    requires qs != map[] && NoneExhausted(qs)
    ensures exists h :: Earliest(qs, h)
    decreases |qs|
  {
    var k :| k in qs;
    var rest := qs - {k};
    if rest == map[] {
      assert forall h :: h in qs && h != k ==> h in rest;
      assert Earliest(qs, k);
    } else {
      EarliestExists(rest);
      var h :| Earliest(rest, h);
      assert forall j :: j in qs ==> j == k || j in rest;
      assert Earliest(qs, if qs[k][0].timepoint <= rest[h][0].timepoint then k else h);
    }
  }

  // ----- The two calls

  /** The iterators the copy starts from. */
  ghost function Iterators(keys: seq<nat>, w: World): Queues {
    map i | 0 <= i < |keys| && w.HistoryOf(keys[i]) != [] :: keys[i] := w.HistoryOf(keys[i])
  }

  lemma {:induction false} IteratorsHoldNeeded(keys: seq<nat>, all: seq<nat>, w: World)
    requires w.Sound() && Distinct(all, w) && |keys| <= |all| && keys == all[..|keys|]
    ensures Total(keys, Iterators(all, w)) == Needed(keys, w)
  {
    if keys == [] {
    } else {
      var n := |keys| - 1;
      IteratorsHoldNeeded(keys[..n], all, w);
      assert keys[n] == all[n];
    }
  }

  ghost function EntriesOf(keys: seq<nat>, w: World): set<nat> {
    set i | 0 <= i < |keys| && keys[i] in w.actions :: w.actions[keys[i]]
  }

  /** What the loop over the filter holds after the filters `fs`; `keys` is the ghost list
      of the handles it took. */
  ghost predicate Gathered(fs: seq<Handle>, keys: seq<nat>, w: World, entries: set<nat>, iterators: Queues, size: nat) {
    && keys == FirstHandles(fs, w) && entries == EntriesOf(keys, w)
    && iterators == Iterators(keys, w) && size == Needed(keys, w)
  }

  lemma EntriesOneMore(keys: seq<nat>, w: World, h: nat)
    requires h in w.actions
    ensures w.actions[h] in EntriesOf(keys, w) <==> Aliased(keys, w, h)
    ensures EntriesOf(keys + [h], w) == EntriesOf(keys, w) + {w.actions[h]}
  {
    var longer := keys + [h];
    assert longer[|keys|] == h;
    assert forall i :: 0 <= i < |keys| ==> longer[i] == keys[i];
  }

  lemma IteratorsOneMore(keys: seq<nat>, w: World, h: nat)
    requires h in w.actions && !Aliased(keys, w, h)
    ensures h !in Iterators(keys, w)
    ensures Iterators(keys + [h], w) ==
            if w.HistoryOf(h) != [] then Iterators(keys, w)[h := w.HistoryOf(h)] else Iterators(keys, w)
  {
    var longer := keys + [h];
    forall k ensures k in Iterators(longer, w) <==> k in Iterators(keys, w) || (k == h && w.HistoryOf(h) != []) {
      if k == h { assert longer[|keys|] == h; }
      if i :| 0 <= i < |keys| && keys[i] == k { assert longer[i] == k; }
    }
  }

  lemma NeededOneMore(keys: seq<nat>, w: World, h: nat)
    ensures Needed(keys + [h], w) == Needed(keys, w) + |w.HistoryOf(h)|
  {
    assert (keys + [h])[..|keys|] == keys;
  }

  lemma GatheredOneMore(fs: seq<Handle>, f: Handle, keys: seq<nat>, w: World, entries: set<nat>, iterators: Queues,
        size: nat)
    requires Gathered(fs, keys, w, entries, iterators, size) && w.Knows(f) && w.actions[f.index] !in entries
    ensures var h, history := f.index, w.HistoryOf(f.index);
            h !in iterators &&
            Gathered(fs + [f], keys + [h], w, entries + {w.actions[h]},
                     if history != [] then iterators[h := history] else iterators, size + |history|)
  {
    assert (fs + [f])[..|fs|] == fs;
    EntriesOneMore(keys, w, f.index);
    IteratorsOneMore(keys, w, f.index);
    NeededOneMore(keys, w, f.index);
  }

  lemma GatheredAlias(fs: seq<Handle>, f: Handle, keys: seq<nat>, w: World, entries: set<nat>, iterators: Queues,
        size: nat)
    requires Gathered(fs, keys, w, entries, iterators, size) && w.Knows(f) && w.actions[f.index] in entries
    ensures Gathered(fs + [f], keys, w, entries, iterators, size)
  {
    assert (fs + [f])[..|fs|] == fs;
    EntriesOneMore(keys, w, f.index);
  }

  /** What the merging loop keeps: `left` records are still to write. */
  ghost predicate Merging(keys: seq<nat>, start: Queues, out: seq<Record>, iterators: Queues, left: nat) {
    && Merged(start, out) && iterators == Left(start, out)
    && Lists(keys, iterators) && NoneExhausted(iterators) && Total(keys, iterators) == left
  }

  lemma GatheredStarts(keys: seq<nat>, w: World)
    requires w.Sound() && Distinct(keys, w)
    ensures var iterators := Iterators(keys, w);
            Merging(keys, iterators, [], iterators, Needed(keys, w))
  {
    assert keys[..|keys|] == keys;
    IteratorsHoldNeeded(keys, keys, w);
  }

  lemma MergingOneMore(keys: seq<nat>, start: Queues, out: seq<Record>, iterators: Queues, left: nat, r: Record)
    requires Merging(keys, start, out, iterators, left) && Takes(iterators, r)
    ensures left > 0 && Merging(keys, start, out + [r], Advanced(iterators, r.action), left - 1)
  {
    assert (out + [r])[..|out|] == out;
    TakesKeepsLists(keys, iterators, r);
  }

  lemma MergingGoesOn(keys: seq<nat>, start: Queues, out: seq<Record>, iterators: Queues, left: nat)
    requires Merging(keys, start, out, iterators, left)
    ensures left == 0 ==> iterators == map[]
    ensures left > 0 ==> exists h :: Earliest(iterators, h)
  {
    QueuesLeftIff(keys, iterators);
    if left > 0 { EarliestExists(iterators); }
  }

  class Windowing {
    var actions: map<nat, nat>
    var histories: map<nat, seq<State>>

    function Table(): World reads this { World(actions, histories) }

    ghost predicate Valid() reads this { Table().Sound() }

    /** The query: the sizes of the histories of all filters, or an error at the first
        filter that is not a known action. */
    method GetActionsHistorySize(pFilters: Option<seq<Handle>>) returns (size: Option<nat>)
      requires Valid()
      ensures size.Some? <==> pFilters.Some? && pFilters.value != [] && Known(pFilters.value, Table())
      ensures size.Some? ==> size.value == Reported(pFilters.value, Table())
    {
      if pFilters.None? { return None; }
      var fs := pFilters.value;
      if fs == [] { return None; }
      var sum, i := 0, 0;
      while i < |fs|
        invariant 0 <= i <= |fs| && Known(fs[..i], Table()) && sum == Reported(fs[..i], Table())
      {
        if !fs[i].isAction { return None; }
        if fs[i].index !in actions { return None; }
        assert fs[..i + 1][..i] == fs[..i];
        sum := sum + |histories[actions[fs[i].index]]|;
        i := i + 1;
      }
      assert fs[..i] == fs;
      return Some(sum);
    }

    /** The loop over the filter; an entry that is already gathered is skipped. */
    method Gather(fs: seq<Handle>) returns (ok: bool, iterators: Queues, size: nat, ghost keys: seq<nat>)
      requires Valid()
      ensures ok <==> Known(fs, Table())
      ensures ok ==> keys == FirstHandles(fs, Table())
      ensures ok ==> iterators == Iterators(keys, Table()) && size == Needed(keys, Table())
    {
      ok, iterators, size, keys := true, map[], 0, [];
      var entries: set<nat>, i := {}, 0;
      while i < |fs|
        invariant 0 <= i <= |fs| && Known(fs[..i], Table())
        invariant Gathered(fs[..i], keys, Table(), entries, iterators, size)
      {
        var h := fs[i].index;
        if !fs[i].isAction || h !in actions { return false, iterators, size, keys; }
        assert fs[..i + 1] == fs[..i] + [fs[i]];
        var entry := actions[h];
        if entry in entries {
          GatheredAlias(fs[..i], fs[i], keys, Table(), entries, iterators, size);
        } else {
          GatheredOneMore(fs[..i], fs[i], keys, Table(), entries, iterators, size);
          entries := entries + {entry};
          // The source refuses the filter if `h` already has an iterator, which cannot be.
          assert h !in iterators;
          if histories[entry] != [] { iterators := iterators[h := histories[entry]]; }
          size := size + |histories[entry]|;
          keys := keys + [h];
        }
        i := i + 1;
      }
      assert fs[..i] == fs;
    }

    /** The merge: fills the first places of the array from the given queues. */
    method Merge(pEntries: array<Record>, start: Queues, size: nat, ghost keys: seq<nat>)
      requires size <= pEntries.Length && Merging(keys, start, [], start, size)
      modifies pEntries
      ensures Merged(start, pEntries[..size]) && Left(start, pEntries[..size]) == map[]
      ensures pEntries[size..] == old(pEntries[size..])
    {
      var iterators, i := start, 0;
      while i < size
        invariant 0 <= i <= size && Merging(keys, start, pEntries[..i], iterators, size - i)
        invariant pEntries[size..] == old(pEntries[size..])
      {
        ghost var before := pEntries[..i];
        MergingGoesOn(keys, start, before, iterators, size - i);
        var h :| Earliest(iterators, h);
        var r := Record(h, iterators[h][0]);
        MergingOneMore(keys, start, before, iterators, size - i, r);
        pEntries[i] := r;
        assert pEntries[..i + 1] == before + [r];
        iterators := Advanced(iterators, h);
        i := i + 1;
      }
      MergingGoesOn(keys, start, pEntries[..i], iterators, 0);
    }

    /** The copy: an error leaves the array alone; otherwise its first places hold the
        merge of the histories named by the filter, and the rest is left alone. */
    method CopyActionsHistory(pEntries: array<Record>, pFilters: Option<seq<Handle>>) returns (result: Outcome)
      requires Valid()
      requires pFilters.Some? && Known(pFilters.value, Table()) ==>
          NeededFor(pFilters.value, Table()) <= pEntries.Length
      modifies pEntries
      ensures result == Success <==> pFilters.Some? && pFilters.value != [] && Known(pFilters.value, Table())
      ensures result != Success ==> pEntries[..] == old(pEntries[..])
      ensures result == Success ==>
                var fs := pFilters.value;
                CopyOf(fs, Table(), pEntries[..NeededFor(fs, Table())]) &&
                pEntries[NeededFor(fs, Table())..] == old(pEntries[NeededFor(fs, Table())..])
    {
      if pFilters.None? { return InvalidValue; }
      var fs := pFilters.value;
      if fs == [] { return InvalidValue; }
      var ok, iterators, size, keys := Gather(fs);
      if !ok { return InvalidValue; }
      FirstHandlesRepresent(fs, Table());
      GatheredStarts(keys, Table());
      if size == 0 {
        MergingGoesOn(keys, iterators, [], iterators, 0);
        assert pEntries[..size] == [];
        return Success;
      }
      Merge(pEntries, iterators, size, keys);
      return Success;
    }
  }

  /** `out` is a complete merge of the histories the filter names. */
  ghost predicate CopyOf(fs: seq<Handle>, w: World, out: seq<Record>)
    requires Known(fs, w)
  {
    FirstHandlesRepresent(fs, w);
    var start := Iterators(FirstHandles(fs, w), w);
    |out| == NeededFor(fs, w) && Merged(start, out) && Left(start, out) == map[]
  }

  /** Of every entry the filter names the copy holds the whole history, once and in order,
      under the first handle that names it; no other handle appears. */
  lemma CopyHoldsEachHistoryOnce(fs: seq<Handle>, w: World, out: seq<Record>, h: nat)
    requires Known(fs, w) && CopyOf(fs, w, out)
    ensures (exists i :: 0 <= i < |FirstHandles(fs, w)| && FirstHandles(fs, w)[i] == h) ==>
              h in w.actions && RecordsOf(out, h) == w.HistoryOf(h)
    ensures !(exists i :: 0 <= i < |FirstHandles(fs, w)| && FirstHandles(fs, w)[i] == h) ==> RecordsOf(out, h) == []
  {
    FirstHandlesRepresent(fs, w);
    var keys := FirstHandles(fs, w);
    MergeInterleaves(Iterators(keys, w), out, h);
    assert RecordsOf(out, h) + [] == RecordsOf(out, h);
    if i :| 0 <= i < |keys| && keys[i] == h { assert w.HistoryOf(keys[i]) == Queue(Iterators(keys, w), h); }
  }

  /** Time-ordered histories give a time-ordered copy. */
  lemma CopyIsTimeOrdered(fs: seq<Handle>, w: World, out: seq<Record>)
    requires Known(fs, w) && CopyOf(fs, w, out)
    requires forall e :: e in w.histories ==> InOrder(w.histories[e])
    ensures TimeOrdered(out)
  {
    FirstHandlesRepresent(fs, w);
    MergeIsTimeOrdered(Iterators(FirstHandles(fs, w), w), out);
  }
}
