// The eviction pass: decide on the (relevance, optionally age) order, remove by
// descending index, and leave one consolidation note behind for each victim.
module Eviction {
  import opened Text
  import opened Ordering
  import opened Workspace

  datatype Ranked = Ranked(idx: nat, score: real, mtime: nat)

  // Least relevant first; among equals the older first when only the latest run is
  // wanted; the sort is stable, so list position decides what is left.
  predicate EvictsBefore(latest: bool, a: Ranked, b: Ranked) {
    || a.score < b.score
    || (a.score == b.score
        && if latest then a.mtime < b.mtime || (a.mtime == b.mtime && a.idx <= b.idx)
           else a.idx < b.idx || (a.idx == b.idx && a.mtime <= b.mtime))
  }

  function EvictOrder(latest: bool): (Ranked, Ranked) -> bool {
    (a, b) => EvictsBefore(latest, a, b)
  }

  lemma EvictOrderTotal(latest: bool)
    ensures TotalOrder(EvictOrder(latest))
  {
  }

  predicate Descending(a: int, b: int) {
    a >= b
  }

  function Ranks(st: State): (r: seq<Ranked>)
    ensures |r| == |st.loaded|
  {
    seq(|st.loaded|, i requires 0 <= i < |st.loaded| =>
      Ranked(i, ScoreOf(st, st.loaded[i].id), st.loaded[i].mtime))
  }

  function Queue(st: State, latest: bool): seq<Ranked> {
    Sort(EvictOrder(latest), Ranks(st))
  }

  predicate InRange(q: seq<Ranked>, n: nat) {
    forall j :: 0 <= j < |q| ==> q[j].idx < n
  }

  // Where taking from the front of the queue stops, `from` taken and `left` tokens
  // still resident.
  function Cut(q: seq<Ranked>, from: nat, fs: seq<Fragment>, cfg: Config, left: int): (k: nat)
    requires from <= |q| && InRange(q, |fs|)
    ensures from <= k <= |q|
    decreases |q| - from
  {
    if from == |q| || (q[from].score >= cfg.unload && left <= cfg.maxTokens) then from
    else Cut(q, from + 1, fs, cfg, left - fs[q[from].idx].tokens)
  }

  function Indices(q: seq<Ranked>): (r: seq<int>)
    ensures |r| == |q|
  {
    seq(|q|, j requires 0 <= j < |q| => q[j].idx)
  }

  function Members(d: seq<int>): set<int> {
    set i | i in d
  }

  // The list without the positions in `out`.
  function Keep(fs: seq<Fragment>, out: set<int>): seq<Fragment> {
    if fs == [] then []
    else Keep(fs[..|fs| - 1], out) + if |fs| - 1 in out then [] else [fs[|fs| - 1]]
  }

  function Removed(fs: seq<Fragment>, d: seq<int>): (r: seq<Fragment>)
    requires forall j :: 0 <= j < |d| ==> 0 <= d[j] < |fs|
    ensures |r| == |d|
  {
    seq(|d|, j requires 0 <= j < |d| => fs[d[j]])
  }

  // ---------- consolidation ----------

  // The header that admission prepends, taken off again.
  function StripNotes(content: string): string {
    if NOTES_PREFIX <= content then
      var rest := content[|NOTES_PREFIX|..];
      match Find(rest, CLOSE)
      case Some(end) => rest[end + 3..]
      case None => content
    else content
  }

  function NotesFor(ledger: seq<Note>, id: string): seq<string> {
    if ledger == [] then []
    else
      var earlier := NotesFor(ledger[..|ledger| - 1], id);
      var last := ledger[|ledger| - 1];
      if last.id == id then earlier + [last.text] else earlier
  }

  // The note synthesizer with its mechanical fallback: raw content, query, score at
  // eviction, source, earlier notes.
  type Synthesizer = (string, string, real, string, seq<string>) -> string

  function RetireOne(st: State, f: Fragment, query: string, synth: Synthesizer): State {
    var text := synth(StripNotes(f.content), query, ScoreOf(st, f.id), f.source, NotesFor(st.ledger, f.id));
    st.(scores := st.scores - {f.id}, ledger := st.ledger + [Note(f.id, text)])
  }

  function Retire(st: State, victims: seq<Fragment>, query: string, synth: Synthesizer): State
    decreases |victims|
  {
    if victims == [] then st
    else Retire(RetireOne(st, victims[0], query, synth), victims[1..], query, synth)
  }

  // ---------- the pass ----------

  lemma QueueIndices(st: State, latest: bool)
    ensures var q := Queue(st, latest);
            && |q| == |st.loaded| && Sorted(EvictOrder(latest), q) && InRange(q, |st.loaded|)
            && AllDistinct(Indices(q))
            && (forall j :: 0 <= j < |q| ==> q[j] == Ranks(st)[q[j].idx])
            && (forall i :: 0 <= i < |st.loaded| ==> Ranks(st)[i] in q)
  {
    var r := Ranks(st);
    EvictOrderTotal(latest);
    assert AllDistinct(r);
    assert forall i :: 0 <= i < |r| ==> r[i].idx == i;
    assert Queue(st, latest) == Sort(EvictOrder(latest), r);
    hide *;
    SortedQueue(EvictOrder(latest), r);
    IndicesDistinct(Queue(st, latest), r);
  }

  lemma SortedQueue(le: (Ranked, Ranked) -> bool, r: seq<Ranked>)
    requires TotalOrder(le) && AllDistinct(r) && forall i :: 0 <= i < |r| ==> r[i].idx == i
    ensures var q := Sort(le, r);
            && |q| == |r| && Sorted(le, q) && InRange(q, |r|) && AllDistinct(q)
            && (forall j :: 0 <= j < |q| ==> q[j] == r[q[j].idx])
            && (forall i :: 0 <= i < |r| ==> r[i] in q)
  {
    var q := Sort(le, r);
    SortSorted(le, r);
    DistinctRearranged(r, q);
    hide Sort, Sorted, TotalOrder, AllDistinct;
    forall j | 0 <= j < |q| ensures q[j].idx < |r| && q[j] == r[q[j].idx] {
      assert q[j] in multiset(q);
      assert q[j] in r;
    }
    forall i | 0 <= i < |r| ensures r[i] in q {
      assert r[i] in multiset(r);
      assert r[i] in multiset(q);
    }
  }

  lemma IndicesDistinct(q: seq<Ranked>, r: seq<Ranked>)
    requires AllDistinct(q) && InRange(q, |r|) && forall j :: 0 <= j < |q| ==> q[j] == r[q[j].idx]
    ensures AllDistinct(Indices(q))
  {
  }

  lemma DescendingTotal()
    ensures TotalOrder(Descending)
  {
  }

  lemma DescendingFacts(taken: seq<int>, d: seq<int>, n: nat)
    requires AllDistinct(taken) && forall j :: 0 <= j < |taken| ==> 0 <= taken[j] < n
    requires d == Sort(Descending, taken)
    ensures Sorted(Descending, d) && AllDistinct(d) && (forall j :: 0 <= j < |d| ==> 0 <= d[j] < n)
    ensures Members(d) == Members(taken)
  {
    DescendingTotal();
    hide Sort, Insert, Descending;
    SortSorted(Descending, taken);
    DistinctRearranged(taken, d);
    forall i ensures i in d <==> i in taken {
      assert i in multiset(d) <==> i in multiset(taken);
    }
    forall j | 0 <= j < |d| ensures 0 <= d[j] < n {
      assert d[j] in taken;
    }
  }

  function CutOf(st: State, cfg: Config, latest: bool): (k: nat)
    ensures k <= |Queue(st, latest)|
  {
    QueueIndices(st, latest);
    Cut(Queue(st, latest), 0, st.loaded, cfg, Tokens(st.loaded))
  }

  // Victims in the order they are removed: by descending position.
  function Victims(st: State, cfg: Config, latest: bool): (d: seq<int>)
    ensures Sorted(Descending, d) && AllDistinct(d)
    ensures forall j :: 0 <= j < |d| ==> 0 <= d[j] < |st.loaded|
    ensures Members(d) == Taken(Queue(st, latest), CutOf(st, cfg, latest))
  {
    QueueIndices(st, latest);
    var taken := Indices(Queue(st, latest)[..CutOf(st, cfg, latest)]);
    TakenDistinct(Queue(st, latest), CutOf(st, cfg, latest));
    var d := Sort(Descending, taken);
    DescendingFacts(taken, d, |st.loaded|);
    d
  }

  // Positions taken by the first `k` of a queue.
  function Taken(q: seq<Ranked>, k: nat): set<int>
    requires k <= |q|
  {
    Members(Indices(q[..k]))
  }

  lemma TakenDistinct(q: seq<Ranked>, k: nat)
    requires k <= |q| && AllDistinct(Indices(q))
    ensures AllDistinct(Indices(q[..k]))
    ensures k < |q| ==> Indices(q[..k + 1]) == Indices(q[..k]) + [q[k].idx]
    ensures k < |q| ==> q[k].idx !in Taken(q, k) && Taken(q, k + 1) == Taken(q, k) + {q[k].idx}
  {
    assert Indices(q[..k]) == Indices(q)[..k];
    if k < |q| {
      assert Indices(q[..k + 1]) == Indices(q[..k]) + [q[k].idx];
      forall j | 0 <= j < k ensures Indices(q)[j] != Indices(q)[k] {}
    }
  }

  function Evict(st: State, cfg: Config, latest: bool, query: string, synth: Synthesizer): State {
    var d := Victims(st, cfg, latest);
    Retire(st.(loaded := Keep(st.loaded, Members(d))), Removed(st.loaded, d), query, synth)
  }

  // ---------- removal by position ----------

  // Positions above `i` are gone already, so `i` still stands where it stood.
  lemma {:induction false} KeepRemove(fs: seq<Fragment>, out: set<int>, i: nat)
    requires i < |fs| && forall o :: o in out ==> i < o
    ensures i < |Keep(fs, out)| && Keep(fs, out)[i] == fs[i]
    ensures Keep(fs, out + {i}) == Keep(fs, out)[..i] + Keep(fs, out)[i + 1..]
  {
    var front := fs[..|fs| - 1];
    if i == |fs| - 1 {
      KeepAll(front, out);
      KeepAll(front, out + {i});
    } else {
      KeepRemove(front, out, i);
      assert front[i] == fs[i];
    }
  }

  lemma {:induction false} KeepAll(fs: seq<Fragment>, out: set<int>)
    requires forall o :: o in out ==> |fs| <= o
    ensures Keep(fs, out) == fs
  {
    if fs != [] { KeepAll(fs[..|fs| - 1], out); }
  }

  lemma KeepTokensStep(fs: seq<Fragment>, out: set<int>)
    requires fs != []
    ensures var front := fs[..|fs| - 1];
            Tokens(Keep(fs, out)) == Tokens(Keep(front, out)) + if |fs| - 1 in out then 0 else fs[|fs| - 1].tokens
  {
    var front, last := fs[..|fs| - 1], fs[|fs| - 1];
    TokensAppend(Keep(front, out), if |fs| - 1 in out then [] else [last]);
    assert [last][..0] == [];
  }

  lemma {:induction false} KeepTokens(fs: seq<Fragment>, out: set<int>, i: nat)
    requires i < |fs| && i !in out
    ensures Tokens(Keep(fs, out + {i})) + fs[i].tokens == Tokens(Keep(fs, out))
  {
    KeepTokensStep(fs, out);
    KeepTokensStep(fs, out + {i});
    var front := fs[..|fs| - 1];
    if i == |fs| - 1 {
      KeepSame(front, out, i);
    } else {
      KeepTokens(front, out, i);
      assert front[i] == fs[i];
    }
  }

  lemma {:induction false} KeepSame(fs: seq<Fragment>, out: set<int>, i: nat)
    requires |fs| <= i
    ensures Keep(fs, out + {i}) == Keep(fs, out)
  {
    if fs != [] { KeepSame(fs[..|fs| - 1], out, i); }
  }

  // Positions kept, in increasing order.
  function Kept(n: nat, out: set<int>): (ks: seq<int>)
    ensures forall j :: 0 <= j < |ks| ==> 0 <= ks[j] < n && ks[j] !in out
  {
    if n == 0 then [] else Kept(n - 1, out) + if n - 1 in out then [] else [n - 1]
  }

  lemma {:induction false} KeptIncreasing(n: nat, out: set<int>)
    ensures forall i, j :: 0 <= i < j < |Kept(n, out)| ==> Kept(n, out)[i] < Kept(n, out)[j]
    ensures forall i :: 0 <= i < n && i !in out ==> i in Kept(n, out)
  {
    if n > 0 { KeptIncreasing(n - 1, out); }
  }

  lemma RemovedAppend(fs: seq<Fragment>, d: seq<int>, i: nat)
    requires i < |fs| && forall j :: 0 <= j < |d| ==> 0 <= d[j] < |fs|
    ensures Removed(fs, d + [i]) == Removed(fs, d) + [fs[i]]
  {
  }

  lemma RemovedFront(fs: seq<Fragment>, d: seq<int>, n: nat)
    requires n <= |fs| && forall j :: 0 <= j < |d| ==> 0 <= d[j] < n
    ensures Removed(fs, d) == Removed(fs[..n], d)
  {
  }

  lemma {:induction false} KeepIsSubsequence(fs: seq<Fragment>, out: set<int>)
    ensures Keep(fs, out) == Removed(fs, Kept(|fs|, out))
  {
    if fs != [] {
      var n := |fs| - 1;
      var ks := Kept(n, out);
      KeepIsSubsequence(fs[..n], out);
      RemovedFront(fs, ks, n);
      RemovedAppend(fs, ks, n);
      hide Removed;
      assert ks + [] == ks;
    }
  }

  lemma MultisetDrop(s: seq<Fragment>, i: nat)
    requires i < |s|
    ensures multiset(s[..i] + s[i + 1..]) + multiset{s[i]} == multiset(s)
  {
    assert s == s[..i] + [s[i]] + s[i + 1..];
  }

  lemma LastIsLowest(d: seq<int>)
    requires d != [] && Sorted(Descending, d) && AllDistinct(d)
    ensures var front, i := d[..|d| - 1], d[|d| - 1];
            Members(d) == Members(front) + {i} && forall o | o in Members(front) :: i < o
  {
    var front, i := d[..|d| - 1], d[|d| - 1];
    assert d == front + [i];
    forall o | o in Members(front) ensures i < o {
      var j :| 0 <= j < |front| && front[j] == o;
      assert Descending(d[j], d[|d| - 1]);
    }
  }

  lemma {:induction false} KeepAndRemoved(fs: seq<Fragment>, d: seq<int>)
    requires Sorted(Descending, d) && AllDistinct(d) && forall j :: 0 <= j < |d| ==> 0 <= d[j] < |fs|
    ensures multiset(Keep(fs, Members(d))) + multiset(Removed(fs, d)) == multiset(fs)
  {
    if d == [] {
      KeepAll(fs, {});
      assert Members(d) == {};
    } else {
      var front, i := d[..|d| - 1], d[|d| - 1];
      KeepAndRemoved(fs, front);
      assert d == front + [i];
      LastIsLowest(d);
      hide *;
      KeepRemove(fs, Members(front), i);
      MultisetDrop(Keep(fs, Members(front)), i);
      RemovedAppend(fs, front, i);
    }
  }

  // ---------- what the queue cut means ----------

  // Taking the first `k` leaves nothing below the threshold and fits the budget.
  ghost predicate Safe(st: State, cfg: Config, q: seq<Ranked>, k: nat)
    requires k <= |q|
  {
    && (forall j :: k <= j < |q| ==> q[j].score >= cfg.unload)
    && Tokens(Keep(st.loaded, Taken(q, k))) <= cfg.maxTokens
  }

  // A queue position is a stopping place when it and everything after it may stay.
  lemma SafeExactly(st: State, cfg: Config, latest: bool, q: seq<Ranked>, k: nat)
    requires k <= |q| && Sorted(EvictOrder(latest), q) && Keep(st.loaded, Taken(q, |q|)) == []
    ensures Safe(st, cfg, q, k) <==>
              k == |q| || (q[k].score >= cfg.unload && Tokens(Keep(st.loaded, Taken(q, k))) <= cfg.maxTokens)
  {
    if k < |q| && q[k].score >= cfg.unload {
      forall j | k <= j < |q| ensures q[j].score >= cfg.unload {
        if k < j { assert EvictOrder(latest)(q[k], q[j]); }
      }
    }
  }

  // The cut is the first stopping place, `rem[k]` being the tokens left after taking `k`.
  lemma {:induction false} CutIsFirst(q: seq<Ranked>, from: nat, fs: seq<Fragment>, cfg: Config, rem: seq<int>)
    requires from <= |q| && InRange(q, |fs|) && |rem| == |q| + 1
    requires forall k :: 0 <= k < |q| ==> rem[k + 1] == rem[k] - fs[q[k].idx].tokens
    ensures var k := Cut(q, from, fs, cfg, rem[from]);
            && (k < |q| ==> q[k].score >= cfg.unload && rem[k] <= cfg.maxTokens)
            && forall j :: from <= j < k ==> !(q[j].score >= cfg.unload && rem[j] <= cfg.maxTokens)
    decreases |q| - from
  {
    if from < |q| && !(q[from].score >= cfg.unload && rem[from] <= cfg.maxTokens) {
      CutIsFirst(q, from + 1, fs, cfg, rem);
    }
  }

  // Tokens resident after each number of evictions; the running subtraction of the pass
  // never goes below zero.
  lemma Remaining(st: State, latest: bool) returns (rem: seq<nat>)
    ensures var q := Queue(st, latest);
            && InRange(q, |st.loaded|) && |rem| == |q| + 1 && rem[0] == Tokens(st.loaded)
            && (forall j :: 0 <= j < |q| ==> rem[j + 1] == rem[j] - st.loaded[q[j].idx].tokens)
            && (forall j :: 0 <= j <= |q| ==> rem[j] == TokensWithout(st, q, j))
  {
    var q, fs := Queue(st, latest), st.loaded;
    QueueIndices(st, latest);
    TokensWithoutNone(st, q);
    hide Queue, Ranks, TokensWithout, Sorted, Taken;
    rem := seq(|q| + 1, j requires 0 <= j < |q| + 1 => TokensWithout(st, q, j));
    forall j | 0 <= j < |q| ensures rem[j + 1] == rem[j] - fs[q[j].idx].tokens {
      TokensWithoutStep(st, q, j);
    }
  }

  ghost function TokensWithout(st: State, q: seq<Ranked>, k: nat): nat
    requires k <= |q|
  {
    Tokens(Keep(st.loaded, Taken(q, k)))
  }

  lemma TokensWithoutNone(st: State, q: seq<Ranked>)
    ensures TokensWithout(st, q, 0) == Tokens(st.loaded)
  {
    assert Taken(q, 0) == {};
    KeepAll(st.loaded, {});
  }

  lemma TokensWithoutStep(st: State, q: seq<Ranked>, k: nat)
    requires k < |q| && InRange(q, |st.loaded|) && AllDistinct(Indices(q))
    ensures TokensWithout(st, q, k + 1) == TokensWithout(st, q, k) - st.loaded[q[k].idx].tokens
  {
    TakenDistinct(q, k);
    KeepTokens(st.loaded, Taken(q, k), q[k].idx);
  }

  // The pass takes a shortest prefix of the queue that leaves the workspace safe.
  lemma CutShortest(st: State, cfg: Config, latest: bool)
    ensures var q, k := Queue(st, latest), CutOf(st, cfg, latest);
            Safe(st, cfg, q, k) && forall j :: 0 <= j < k ==> !Safe(st, cfg, q, j)
  {
    hide Queue, Ranks, Keep, Cut, Safe, EvictOrder;
    var q, k, fs := Queue(st, latest), CutOf(st, cfg, latest), st.loaded;
    QueueIndices(st, latest);
    AllGone(st, latest);
    var rem := Remaining(st, latest);
    CutIsFirst(q, 0, fs, cfg, rem);
    forall j | 0 <= j <= k ensures Safe(st, cfg, q, j) <==> j == k {
      SafeExactly(st, cfg, latest, q, j);
    }
  }

  lemma {:induction false} KeepNone(fs: seq<Fragment>, out: set<int>)
    requires forall i :: 0 <= i < |fs| ==> i in out
    ensures Keep(fs, out) == []
  {
    if fs != [] { KeepNone(fs[..|fs| - 1], out); }
  }

  lemma AllGone(st: State, latest: bool)
    ensures var q := Queue(st, latest);
            Keep(st.loaded, Taken(q, |q|)) == []
  {
    var q := Queue(st, latest);
    QueueIndices(st, latest);
    assert q[..|q|] == q;
    forall i | 0 <= i < |st.loaded| ensures i in Taken(q, |q|) {
      var j :| 0 <= j < |q| && q[j] == Ranks(st)[i];
      assert Indices(q)[j] == i;
    }
    KeepNone(st.loaded, Taken(q, |q|));
  }

  // ---------- what one pass does to the workspace ----------

  lemma {:induction false} RetireScores(st: State, victims: seq<Fragment>, query: string, synth: Synthesizer)
    ensures Retire(st, victims, query, synth).loaded == st.loaded
    ensures Retire(st, victims, query, synth).scores == st.scores - Ids(victims)
    decreases |victims|
  {
    if victims == [] {
      assert st.scores - Ids(victims) == st.scores;
    } else {
      var f, rest := victims[0], victims[1..];
      RetireScores(RetireOne(st, f, query, synth), rest, query, synth);
      assert victims == [f] + rest;
      assert Ids(victims) == {f.id} + Ids(rest);
      assert (st.scores - {f.id}) - Ids(rest) == st.scores - Ids(victims);
    }
  }

  // `after` extends `before` by one note for each victim, in order.
  ghost predicate OneNoteEach(before: seq<Note>, after: seq<Note>, victims: seq<Fragment>) {
    && |after| == |before| + |victims| && before <= after
    && forall i :: 0 <= i < |victims| ==> after[|before| + i].id == victims[i].id
  }

  lemma {:induction false} RetireLedger(st: State, victims: seq<Fragment>, query: string, synth: Synthesizer)
    ensures OneNoteEach(st.ledger, Retire(st, victims, query, synth).ledger, victims)
    decreases |victims|
  {
    if victims != [] {
      var next, rest := RetireOne(st, victims[0], query, synth), victims[1..];
      RetireLedger(next, rest, query, synth);
      var after := Retire(next, rest, query, synth).ledger;
      assert after[|st.ledger|] == next.ledger[|st.ledger|];
      forall i | 0 <= i < |victims| ensures after[|st.ledger| + i].id == victims[i].id {
        if i > 0 { assert after[|next.ledger| + (i - 1)].id == rest[i - 1].id; }
      }
    }
  }

  lemma NotesOfOthers(ledger: seq<Note>, note: Note, id: string)
    requires note.id != id
    ensures NotesFor(ledger + [note], id) == NotesFor(ledger, id)
  {
    assert (ledger + [note])[..|ledger|] == ledger;
  }

  // Each note is made from its victim's own text, the score it had before it went, and the
  // notes that were there before the pass.
  lemma {:induction false} RetireNotes(st: State, victims: seq<Fragment>, query: string, synth: Synthesizer, i: nat)
    requires DistinctIds(victims) && i < |victims|
    ensures var after, f := Retire(st, victims, query, synth).ledger, victims[i];
            && |after| == |st.ledger| + |victims|
            && after[|st.ledger| + i]
            == Note(f.id, synth(StripNotes(f.content), query, ScoreOf(st, f.id), f.source, NotesFor(st.ledger, f.id)))
    decreases |victims|
  {
    var next, rest := RetireOne(st, victims[0], query, synth), victims[1..];
    RetireLedger(next, rest, query, synth);
    assert Retire(st, victims, query, synth) == Retire(next, rest, query, synth);
    hide Retire, StripNotes;
    if i == 0 {
      assert Retire(next, rest, query, synth).ledger[|st.ledger|] == next.ledger[|st.ledger|];
    } else {
      forall j, k | 0 <= j < k < |rest| ensures rest[j].id != rest[k].id {
        assert victims[j + 1].id != victims[k + 1].id;
      }
      RetireNotes(next, rest, query, synth, i - 1);
      assert victims[0].id != victims[i].id && rest[i - 1] == victims[i];
      NotesOfOthers(st.ledger, next.ledger[|st.ledger|], victims[i].id);
    }
  }

  function Evicted(st: State, cfg: Config, latest: bool): seq<Fragment> {
    Removed(st.loaded, Victims(st, cfg, latest))
  }

  lemma EvictParts(st: State, cfg: Config, latest: bool, query: string, synth: Synthesizer)
    ensures var e := Evict(st, cfg, latest, query, synth);
            && e.loaded == Keep(st.loaded, Taken(Queue(st, latest), CutOf(st, cfg, latest)))
            && e.scores == st.scores - Ids(Evicted(st, cfg, latest))
            && OneNoteEach(st.ledger, e.ledger, Evicted(st, cfg, latest))
            && multiset(e.loaded) + multiset(Evicted(st, cfg, latest)) == multiset(st.loaded)
  {
    var d := Victims(st, cfg, latest);
    var kept := st.(loaded := Keep(st.loaded, Members(d)));
    KeepAndRemoved(st.loaded, d);
    RetireScores(kept, Removed(st.loaded, d), query, synth);
    RetireLedger(kept, Removed(st.loaded, d), query, synth);
  }

  lemma SurvivorScore(st: State, cfg: Config, latest: bool, i: int)
    requires 0 <= i < |st.loaded| && i !in Taken(Queue(st, latest), CutOf(st, cfg, latest))
    ensures ScoreOf(st, st.loaded[i].id) >= cfg.unload
  {
    var q, k := Queue(st, latest), CutOf(st, cfg, latest);
    QueueIndices(st, latest);
    CutShortest(st, cfg, latest);
    forall p | 0 <= p < k ensures q[p].idx in Taken(q, k) {
      assert Indices(q[..k])[p] == q[p].idx;
    }
    var j :| 0 <= j < |q| && q[j] == Ranks(st)[i];
  }

  // From any workspace, over budget or not: every survivor scores at least the unload
  // threshold and the survivors fit the budget; the survivors are the resident list, in
  // order, without a shortest prefix of the eviction queue that achieves this; survivors
  // and victims together are the old list; and each victim leaves exactly one note.
  lemma EvictMeaning(st: State, cfg: Config, latest: bool, query: string, synth: Synthesizer)
    ensures var e, q, k := Evict(st, cfg, latest, query, synth), Queue(st, latest), CutOf(st, cfg, latest);
            && (forall f :: f in e.loaded ==> ScoreOf(st, f.id) >= cfg.unload)
            && Tokens(e.loaded) <= cfg.maxTokens
            && e.loaded == Removed(st.loaded, Kept(|st.loaded|, Taken(q, k)))
            && Safe(st, cfg, q, k) && (forall j :: 0 <= j < k ==> !Safe(st, cfg, q, j))
            && multiset(e.loaded) + multiset(Evicted(st, cfg, latest)) == multiset(st.loaded)
            && OneNoteEach(st.ledger, e.ledger, Evicted(st, cfg, latest))
  {
    var q, k := Queue(st, latest), CutOf(st, cfg, latest);
    EvictParts(st, cfg, latest, query, synth);
    CutShortest(st, cfg, latest);
    KeepIsSubsequence(st.loaded, Taken(q, k));
    var ks := Kept(|st.loaded|, Taken(q, k));
    forall f | f in Removed(st.loaded, ks) ensures ScoreOf(st, f.id) >= cfg.unload {
      var p :| 0 <= p < |ks| && Removed(st.loaded, ks)[p] == f;
      SurvivorScore(st, cfg, latest, ks[p]);
    }
  }

  // A fragment goes only when its score is below the threshold or the list is over
  // budget; within budget the pass is a pure threshold filter.
  lemma EvictWithinBudget(st: State, cfg: Config, latest: bool, query: string, synth: Synthesizer, i: nat)
    requires i < |st.loaded| && Tokens(st.loaded) <= cfg.maxTokens
    requires ScoreOf(st, st.loaded[i].id) >= cfg.unload
    ensures i !in Members(Victims(st, cfg, latest))
    ensures st.loaded[i] in Evict(st, cfg, latest, query, synth).loaded
  {
    hide Queue, Keep, Tokens, Cut, EvictOrder;
    var q, k := Queue(st, latest), CutOf(st, cfg, latest);
    QueueIndices(st, latest);
    AllGone(st, latest);
    CutShortest(st, cfg, latest);
    if i in Taken(q, k) {
      var j :| 0 <= j < k && Indices(q[..k])[j] == i;
      assert q[j].score >= cfg.unload;
      KeepTokensBelow(st.loaded, Taken(q, j));
      SafeExactly(st, cfg, latest, q, j);
    }
    EvictMeaning(st, cfg, latest, query, synth);
    var ks := Kept(|st.loaded|, Taken(q, k));
    KeptIncreasing(|st.loaded|, Taken(q, k));
    var p :| 0 <= p < |ks| && ks[p] == i;
    assert Removed(st.loaded, ks)[p] == st.loaded[i];
  }

  lemma {:induction false} KeepTokensBelow(fs: seq<Fragment>, out: set<int>)
    ensures Tokens(Keep(fs, out)) <= Tokens(fs)
  {
    if fs != [] {
      KeepTokensBelow(fs[..|fs| - 1], out);
      KeepTokensStep(fs, out);
    }
  }

  lemma {:induction false} KeepMeasures(fs: seq<Fragment>, out: set<int>)
    ensures HistoryTokens(Keep(fs, out)) <= HistoryTokens(fs) && |Keep(fs, out)| <= |fs|
    ensures forall s :: CountOf(Keep(fs, out), s) <= CountOf(fs, s)
  {
    if fs != [] {
      var front, last := fs[..|fs| - 1], fs[|fs| - 1];
      KeepMeasures(front, out);
      if |fs| - 1 in out {
        assert Keep(fs, out) == Keep(front, out);
      } else {
        TokensAppend(Keep(front, out), [last]);
        TokensAppend([], [last]);
        forall s ensures CountOf(Keep(fs, out), s) <= CountOf(fs, s) {
          CountAppend(Keep(front, out), [last], s);
          CountAppend([], [last], s);
        }
      }
    }
  }

  // With a positive threshold every survivor carries a score and every score belongs to
  // a survivor: fragments admitted without one do not outlive a pass.
  lemma ScoresMatchSurvivors(st: State, cfg: Config, latest: bool, query: string, synth: Synthesizer)
    requires DistinctIds(st.loaded) && st.scores.Keys <= Ids(st.loaded) && cfg.unload > 0.0
    ensures var e := Evict(st, cfg, latest, query, synth);
            && e.scores.Keys == Ids(e.loaded)
            && DistinctIds(e.loaded)
            && forall id :: id in e.scores ==> id in st.scores && e.scores[id] == st.scores[id]
  {
    var e := Evict(st, cfg, latest, query, synth);
    var gone := Ids(Evicted(st, cfg, latest));
    assert e.scores == st.scores - gone by { EvictParts(st, cfg, latest, query, synth); }
    EvictIds(st, cfg, latest, query, synth);
    forall id | id in Ids(e.loaded) ensures id in st.scores {
      var f :| f in e.loaded && f.id == id;
      SurvivorRelevant(st, cfg, latest, query, synth, f);
    }
  }

  lemma SurvivorRelevant(st: State, cfg: Config, latest: bool, query: string, synth: Synthesizer, f: Fragment)
    requires f in Evict(st, cfg, latest, query, synth).loaded
    ensures ScoreOf(st, f.id) >= cfg.unload
  {
    EvictMeaning(st, cfg, latest, query, synth);
  }

  lemma {:induction false} KeepDistinct(fs: seq<Fragment>, out: set<int>)
    requires DistinctIds(fs)
    ensures DistinctIds(Keep(fs, out)) && forall f :: f in Keep(fs, out) ==> f in fs
  {
    if fs != [] {
      var front, last := fs[..|fs| - 1], fs[|fs| - 1];
      KeepDistinct(front, out);
      var kept := Keep(front, out);
      forall j | 0 <= j < |kept| ensures kept[j].id != last.id {
        assert kept[j] in front;
      }
    }
  }

  lemma RemovedAt(fs: seq<Fragment>, d: seq<int>, f: Fragment) returns (j: nat)
    requires forall j :: 0 <= j < |d| ==> 0 <= d[j] < |fs|
    requires f in Removed(fs, d)
    ensures j < |d| && fs[d[j]] == f && d[j] in Members(d)
  {
    j :| 0 <= j < |d| && Removed(fs, d)[j] == f;
  }

  lemma KeepDisjoint(fs: seq<Fragment>, d: seq<int>, a: Fragment, b: Fragment)
    requires DistinctIds(fs) && forall j :: 0 <= j < |d| ==> 0 <= d[j] < |fs|
    requires a in Keep(fs, Members(d)) && b in Removed(fs, d)
    ensures a.id != b.id
  {
    var ks := Kept(|fs|, Members(d));
    KeepIsSubsequence(fs, Members(d));
    hide Keep, Kept, Members, Removed;
    var i := RemovedAt(fs, ks, a);
    var j := RemovedAt(fs, d, b);
    assert ks[i] != d[j];
  }

  // Identifiers split into survivors and victims.
  lemma EvictIds(st: State, cfg: Config, latest: bool, query: string, synth: Synthesizer)
    requires DistinctIds(st.loaded)
    ensures var e := Evict(st, cfg, latest, query, synth);
            && DistinctIds(e.loaded)
            && Ids(e.loaded) + Ids(Evicted(st, cfg, latest)) == Ids(st.loaded)
            && Ids(e.loaded) !! Ids(Evicted(st, cfg, latest))
            && (forall f :: f in e.loaded ==> f in st.loaded)
  {
    var d := Victims(st, cfg, latest);
    var left, gone := Keep(st.loaded, Members(d)), Removed(st.loaded, d);
    EvictParts(st, cfg, latest, query, synth);
    KeepDistinct(st.loaded, Members(d));
    PartIds(st.loaded, left, gone);
    forall a, b | a in left && b in gone ensures a.id != b.id {
      KeepDisjoint(st.loaded, d, a, b);
    }
    hide Evict, Keep, Victims, Queue, CutOf, Taken, Removed;
  }

  lemma PartIds(whole: seq<Fragment>, a: seq<Fragment>, b: seq<Fragment>)
    requires multiset(a) + multiset(b) == multiset(whole)
    ensures Ids(a) + Ids(b) == Ids(whole)
    ensures forall f :: f in whole <==> f in a || f in b
  {
    forall f ensures f in whole <==> f in a || f in b {
      assert f in multiset(whole) <==> f in multiset(a) || f in multiset(b);
    }
  }

  // ---------- the notes header ----------

  const CLOSE := "]\n\n"

  // Eviction sees the content that admission decorated exactly when the shown notes do
  // not themselves contain the header's closing mark.
  lemma StripUndoesWithNotes(notes: seq<string>, content: string)
    ensures StripNotes(WithNotes(notes, content)) == content <==> Free(NotesBlock(notes), CLOSE)
  {
    var block := NotesBlock(notes);
    var rest := block + (NOTES_SUFFIX + content);
    StripShape(notes, content);
    BlockTight(notes);
    hide NotesBlock, Find, StripNotes, WithNotes;
    if Free(block, CLOSE) {
      CleanHeader(block, content);
      assert rest[|block| + 1 + 3..] == content;
    } else {
      var i :| OccursAt(block, CLOSE, i);
      OccursInFront(block, NOTES_SUFFIX + content, CLOSE, i);
      var end := Find(rest, CLOSE).value;
      assert |rest[end + 3..]| > |content|;
    }
  }

  // After a block that neither contains the mark nor ends a line, the mark found is the
  // header's own.
  lemma CleanHeader(block: string, content: string)
    requires Free(block, CLOSE) && (block != [] ==> block[|block| - 1] != '\n')
    ensures Find(block + (NOTES_SUFFIX + content), CLOSE) == Some(|block| + 1)
  {
    var tail := NOTES_SUFFIX + content;
    CloseInSuffix(content);
    hide Find;
    forall i | 0 <= i < |block| < i + |CLOSE| ensures !OccursAt(block + tail, CLOSE, i) {
      NoSpanningMark(block, tail, i);
    }
    FindSkip(block, tail, CLOSE);
  }

  lemma NoSpanningMark(block: string, tail: string, i: nat)
    requires i < |block| < i + 3 && |tail| > 1 && block[|block| - 1] != '\n' && tail[1] != '\n'
    ensures !OccursAt(block + tail, CLOSE, i)
  {
    var rest := block + tail;
    if i + 3 <= |rest| {
      var at := rest[i..i + 3];
      assert at[1] == rest[i + 1] && at[2] == rest[i + 2];
      if i + 1 == |block| { assert rest[i + 2] == tail[1]; } else { assert rest[i + 1] == block[|block| - 1]; }
    }
  }

  // The text the synthesizer is to see: without the header that admission put on.
  ghost predicate RawText(content: string, raw: string) {
    || (exists notes :: content == WithNotes(notes, raw) && Free(NotesBlock(notes), CLOSE))
    || (content == raw && !(NOTES_PREFIX <= content))
  }

  lemma RawIsStripped(content: string, raw: string)
    requires RawText(content, raw)
    ensures StripNotes(content) == raw
  {
    if !(content == raw && !(NOTES_PREFIX <= content)) {
      var notes :| content == WithNotes(notes, raw) && Free(NotesBlock(notes), CLOSE);
      StripUndoesWithNotes(notes, raw);
    }
  }

  lemma RemovedDistinct(fs: seq<Fragment>, d: seq<int>)
    requires DistinctIds(fs) && AllDistinct(d) && forall j :: 0 <= j < |d| ==> 0 <= d[j] < |fs|
    ensures DistinctIds(Removed(fs, d))
  {
    var r := Removed(fs, d);
    forall i, j | 0 <= i < j < |r| ensures r[i].id != r[j].id {
      assert d[i] != d[j];
      if d[i] < d[j] { assert fs[d[i]].id != fs[d[j]].id; } else { assert fs[d[j]].id != fs[d[i]].id; }
    }
  }

  // What a pass writes down about each victim: a note made from its text without the header
  // of earlier notes, the query, the score it had decayed to, its source, and the notes kept
  // of it so far.
  lemma EvictionNotes(st: State, cfg: Config, latest: bool, query: string, synth: Synthesizer, i: nat, raw: string)
    requires DistinctIds(st.loaded) && i < |Evicted(st, cfg, latest)|
    requires RawText(Evicted(st, cfg, latest)[i].content, raw)
    ensures var ledger, f := Evict(st, cfg, latest, query, synth).ledger, Evicted(st, cfg, latest)[i];
            && |ledger| == |st.ledger| + |Evicted(st, cfg, latest)| && st.ledger <= ledger
            && ledger[|st.ledger| + i]
            == Note(f.id, synth(raw, query, ScoreOf(st, f.id), f.source, NotesFor(st.ledger, f.id)))
  {
    var kept := st.(loaded := Keep(st.loaded, Members(Victims(st, cfg, latest))));
    var victims := Evicted(st, cfg, latest);
    assert ScoreOf(kept, victims[i].id) == ScoreOf(st, victims[i].id);
    EvictIsRetire(st, cfg, latest, query, synth);
    hide *;
    RawIsStripped(victims[i].content, raw);
    RetireNotes(kept, victims, query, synth, i);
    OldNotesStay(kept, victims, query, synth);
  }

  lemma EvictIsRetire(st: State, cfg: Config, latest: bool, query: string, synth: Synthesizer)
    requires DistinctIds(st.loaded)
    ensures Evict(st, cfg, latest, query, synth)
         == Retire(st.(loaded := Keep(st.loaded, Members(Victims(st, cfg, latest)))), Evicted(st, cfg, latest), query, synth)
    ensures DistinctIds(Evicted(st, cfg, latest))
  {
    RemovedDistinct(st.loaded, Victims(st, cfg, latest));
    hide Victims, Keep, Retire;
  }

  lemma OldNotesStay(st: State, victims: seq<Fragment>, query: string, synth: Synthesizer)
    ensures st.ledger <= Retire(st, victims, query, synth).ledger
  {
    RetireLedger(st, victims, query, synth);
    hide Retire;
  }

  // A note that quotes the closing mark: the header comes off only up to the quotation,
  // and the rest of it stays in front of the content.
  lemma QuotedMarkStays(content: string)
    ensures StripNotes(WithNotes(["a]\n\nb"], content)) == "b\n]\n\n" + content
  {
    var tail := NOTES_SUFFIX + content;
    StripShape(["a]\n\nb"], content);
    QuotedBlock();
    MarkInNote(tail);
    hide StripNotes, WithNotes, NotesBlock, Find;
    assert ("- a]\n\nb" + tail)[6..] == "b" + tail;
    assert "b" + tail == "b\n]\n\n" + content;
  }

  lemma MarkInNote(tail: string)
    ensures Find("- a]\n\nb" + tail, CLOSE) == Some(3)
  {
    var rest := "- a]\n\nb" + tail;
    assert rest[3..6] == CLOSE;
    forall j | 0 <= j < 3 ensures !OccursAt(rest, CLOSE, j) {
      assert rest[j..j + 3][0] == rest[j] == "- a"[j];
    }
    FindIs(rest, CLOSE, 3);
  }

  lemma QuotedBlock()
    ensures NotesBlock(["a]\n\nb"]) == "- a]\n\nb"
  {
    var notes, block := ["a]\n\nb"], "- a]\n\nb";
    var line := block + "\n";
    assert notes[1..] == [] && notes[0..] == notes;
    assert Bullets([]) == "";
    assert Bullets(notes) == line;
    assert "" + line == line;
    assert line[..|line| - 1] == block && block[|block| - 1] == 'b';
    assert TrimEnd(block) == block;
    assert TrimEnd(line) == block;
  }

  lemma StripShape(notes: seq<string>, content: string)
    ensures var rest := NotesBlock(notes) + (NOTES_SUFFIX + content);
            StripNotes(WithNotes(notes, content)) ==
              match Find(rest, CLOSE)
              case Some(end) => rest[end + 3..]
              case None => WithNotes(notes, content)
  {
    hide NotesBlock, Find;
    var rest := NotesBlock(notes) + (NOTES_SUFFIX + content);
    var whole := WithNotes(notes, content);
    assert whole == NOTES_PREFIX + rest;
    assert whole[|NOTES_PREFIX|..] == rest;
  }

  lemma BlockTight(notes: seq<string>)
    ensures NotesBlock(notes) != [] ==> NotesBlock(notes)[|NotesBlock(notes)| - 1] != '\n'
  {
    var hidden := if |notes| > 2 then |notes| - 2 else 0;
    TrimEndShape((if hidden > 0 then "- (" + Dec(hidden) + " older eviction(s) omitted)\n" else "") + Bullets(notes[hidden..]));
  }

  lemma CloseInSuffix(content: string)
    ensures Find(NOTES_SUFFIX + content, CLOSE) == Some(1)
  {
    var s := NOTES_SUFFIX + content;
    assert s[1..4] == CLOSE;
    assert s[0] != CLOSE[0];
    FindIs(s, CLOSE, 1);
  }
}
