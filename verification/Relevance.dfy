// What refreshing does to the scores, pass by pass.
module Relevance {
  import opened Workspace
  import opened WorkspaceRuns

  const MARGIN: real := 0.2

  function Refreshed(score: real, overlap: real): real {
    if overlap > score + MARGIN then overlap else score
  }

  lemma {:induction false} RefreshAllExact(st: State, overlap: string -> real, fs: seq<Fragment>, id: string)
    requires DistinctIds(fs) && id in st.scores
    ensures var after := RefreshAll(st, overlap, fs);
            && id in after.scores
            && (id !in Ids(fs) ==> after.scores[id] == st.scores[id])
            && forall f :: f in fs && f.id == id ==> after.scores[id] == Refreshed(st.scores[id], overlap(f.content))
    decreases |fs|
  {
    if fs != [] {
      var rest := fs[1..];
      var one := RefreshOne(st, overlap, fs[0]);
      forall i, j | 0 <= i < j < |rest| ensures rest[i].id != rest[j].id {
        assert fs[i + 1].id != fs[j + 1].id;
      }
      RefreshAllExact(one, overlap, rest, id);
      if id == fs[0].id {
        forall f | f in rest ensures f.id != id {
          var j :| 0 <= j < |rest| && rest[j] == f;
          assert fs[0].id != fs[j + 1].id;
        }
      }
    }
  }

  // A refresh raises a score to its overlap only over the margin, and lowers none.
  lemma RefreshExact(st: State, overlap: string -> real, f: Fragment)
    requires DistinctIds(st.loaded) && f in st.loaded && f.id in st.scores
    ensures var after := Refresh(st, overlap);
            && f.id in after.scores && after.scores[f.id] == Refreshed(st.scores[f.id], overlap(f.content))
            && after.scores[f.id] >= st.scores[f.id]
  {
    RefreshAllExact(st, overlap, st.loaded, f.id);
  }

  // Refreshing twice against the same output is refreshing once.
  lemma RefreshIdempotent(st: State, overlap: string -> real)
    requires DistinctIds(st.loaded) && st.scores.Keys <= Ids(st.loaded)
    ensures Refresh(Refresh(st, overlap), overlap) == Refresh(st, overlap)
  {
    var once := Refresh(st, overlap);
    var twice := Refresh(once, overlap);
    RefreshKeeps(st, overlap, st.loaded);
    RefreshKeeps(once, overlap, once.loaded);
    RefreshLedger(st, overlap, st.loaded);
    RefreshLedger(once, overlap, once.loaded);
    forall id | id in once.scores ensures twice.scores[id] == once.scores[id] {
      var f :| f in st.loaded && f.id == id;
      RefreshExact(st, overlap, f);
      RefreshExact(once, overlap, f);
    }
    assert twice.scores == once.scores;
  }

  lemma {:induction false} RefreshLedger(st: State, overlap: string -> real, fs: seq<Fragment>)
    ensures RefreshAll(st, overlap, fs).ledger == st.ledger
    decreases |fs|
  {
    if fs != [] { RefreshLedger(RefreshOne(st, overlap, fs[0]), overlap, fs[1..]); }
  }

  // A pass of decay cannot be undone by a refresh that finds no more overlap than before
  // the margin: only a score that fell by more than the margin below its overlap recovers.
  lemma DecayThenRefresh(st: State, cfg: Config, overlap: string -> real, f: Fragment)
    requires DistinctIds(st.loaded) && f in st.loaded && f.id in st.scores
    ensures var after, faded := Refresh(Decay(st, cfg), overlap), Fade(st.scores[f.id], cfg);
            && f.id in after.scores
            && (after.scores[f.id] != faded <==> overlap(f.content) > faded + MARGIN)
  {
    RefreshExact(Decay(st, cfg), overlap, f);
  }
}
