// The greedy budget scheduler and the turn loop that feeds its decisions back to it.
module Scheduler {
  import opened Text

  datatype Fragment = Fragment(id: string, tokens: nat)

  datatype Thresholds = Thresholds(load: real, unload: real)

  datatype Budget = Budget(maxTotal: nat, reservedForPrompt: nat, reservedForAnswer: nat)

  function AvailableForWorkspace(b: Budget): nat {
    var reserved := b.reservedForPrompt + b.reservedForAnswer;
    if b.maxTotal <= reserved then 0 else b.maxTotal - reserved
  }

  // So many tokens fit beside what is reserved for the prompt and the answer.
  predicate HasRoom(b: Budget, used: nat) {
    used == 0 || b.reservedForPrompt + used + b.reservedForAnswer <= b.maxTotal
  }

  lemma RoomMeaning(b: Budget, used: nat)
    ensures HasRoom(b, used) <==> used <= AvailableForWorkspace(b)
  {
  }

  function Total(frags: seq<Fragment>): nat {
    if frags == [] then 0 else frags[0].tokens + Total(frags[1..])
  }

  function Ids(frags: seq<Fragment>): (r: set<string>)
    ensures forall f :: f in frags ==> f.id in r
  {
    if frags == [] then {} else {frags[0].id} + Ids(frags[1..])
  }

  ghost predicate DistinctIds(frags: seq<Fragment>) {
    frags == [] || (frags[0].id !in Ids(frags[1..]) && DistinctIds(frags[1..]))
  }

  lemma {:induction false} IdsAppend(a: seq<Fragment>, b: seq<Fragment>)
    ensures Ids(a + b) == Ids(a) + Ids(b)
  {
    if a == [] {
      assert a + b == b;
    } else {
      assert (a + b)[0] == a[0] && (a + b)[1..] == a[1..] + b;
      IdsAppend(a[1..], b);
    }
  }

  lemma {:induction false} DistinctAppend(a: seq<Fragment>, b: seq<Fragment>)
    requires DistinctIds(a) && DistinctIds(b) && Ids(a) !! Ids(b)
    ensures DistinctIds(a + b)
  {
    if a == [] {
      assert a + b == b;
    } else {
      assert (a + b)[0] == a[0] && (a + b)[1..] == a[1..] + b;
      IdsAppend(a[1..], b);
      DistinctAppend(a[1..], b);
    }
  }

  lemma {:induction false} DistinctMeaning(frags: seq<Fragment>)
    ensures DistinctIds(frags) <==> forall i, j :: 0 <= i < j < |frags| ==> frags[i].id != frags[j].id
  {
    if frags != [] {
      var rest := frags[1..];
      DistinctMeaning(rest);
      IdsAt(rest);
      if DistinctIds(frags) {
        forall i, j | 0 <= i < j < |frags| ensures frags[i].id != frags[j].id {
          assert frags[j] == rest[j - 1];
          if i > 0 { assert rest[i - 1].id != rest[j - 1].id; }
        }
      } else if DistinctIds(rest) {
        var k :| 0 <= k < |rest| && rest[k].id == frags[0].id;
        assert frags[0].id == frags[k + 1].id;
      } else {
        var i, j :| 0 <= i < j < |rest| && rest[i].id == rest[j].id;
        assert frags[i + 1].id == frags[j + 1].id;
      }
    }
  }

  lemma {:induction false} IdsAt(frags: seq<Fragment>)
    ensures forall id | id in Ids(frags) :: exists k :: 0 <= k < |frags| && frags[k].id == id
  {
    if frags != [] {
      var rest := frags[1..];
      IdsAt(rest);
      forall id | id in Ids(frags) ensures exists k :: 0 <= k < |frags| && frags[k].id == id {
        if id != frags[0].id {
          assert id in Ids(rest);
          var k :| 0 <= k < |rest| && rest[k].id == id;
          assert frags[k + 1].id == id;
        }
      }
    }
  }

  lemma {:induction false} TotalAppend(a: seq<Fragment>, b: seq<Fragment>)
    ensures Total(a + b) == Total(a) + Total(b)
  {
    if a == [] {
      assert a + b == b;
    } else {
      assert (a + b)[1..] == a[1..] + b;
      TotalAppend(a[1..], b);
    }
  }

  // ---------- one decision ----------

  type Offer = (Fragment, real)

  function Fragments(offers: seq<Offer>): (r: seq<Fragment>)
    ensures |r| == |offers|
    ensures forall i :: 0 <= i < |r| ==> r[i] == offers[i].0
  {
    if offers == [] then [] else [offers[0].0] + Fragments(offers[1..])
  }

  function Remembered(scores: map<string, real>, id: string): real {
    if id in scores then scores[id] else 1.0
  }

  // Loaded fragments that stay, taken in order while they fit.
  function Kept(frags: seq<Fragment>, scores: map<string, real>, unload: real, budget: nat, used: nat): seq<Fragment> {
    if frags == [] then []
    else if Remembered(scores, frags[0].id) >= unload && used + frags[0].tokens <= budget then
      [frags[0]] + Kept(frags[1..], scores, unload, budget, used + frags[0].tokens)
    else Kept(frags[1..], scores, unload, budget, used)
  }

  // Offers that are taken, in order while they fit.
  function Taken(offers: seq<Offer>, loaded: set<string>, load: real, budget: nat, used: nat): seq<Offer> {
    if offers == [] then []
    else if offers[0].0.id !in loaded && offers[0].1 >= load && used + offers[0].0.tokens <= budget then
      [offers[0]] + Taken(offers[1..], loaded, load, budget, used + offers[0].0.tokens)
    else Taken(offers[1..], loaded, load, budget, used)
  }

  function Remember(scores: map<string, real>, offers: seq<Offer>): map<string, real>
    decreases |offers|
  {
    if offers == [] then scores else Remember(scores[offers[0].0.id := offers[0].1], offers[1..])
  }

  function Missing(frags: seq<Fragment>, kept: set<string>): seq<Fragment> {
    if frags == [] then []
    else (if frags[0].id in kept then [] else [frags[0]]) + Missing(frags[1..], kept)
  }

  datatype Decision = Decision(keep: seq<Fragment>, admitted: seq<Fragment>, evicted: seq<Fragment>)

  function Zip(frags: seq<Fragment>, scores: seq<real>): (r: seq<Offer>)
    ensures |r| == if |frags| <= |scores| then |frags| else |scores|
    ensures forall i :: 0 <= i < |r| ==> r[i] == (frags[i], scores[i])
  {
    if frags == [] || scores == [] then [] else [(frags[0], scores[0])] + Zip(frags[1..], scores[1..])
  }

  // The decision and the scores remembered after it.
  function Decide(t: Thresholds, scores: map<string, real>, loaded: seq<Fragment>, offers: seq<Offer>, budget: nat)
    : (Decision, map<string, real>)
  {
    var kept := Kept(loaded, scores, t.unload, budget, 0);
    var taken := Taken(offers, Ids(loaded), t.load, budget, Total(kept));
    var keep := kept + Fragments(taken);
    var evicted := Missing(loaded, Ids(keep));
    (Decision(keep, Fragments(taken), evicted), Remember(scores, taken) - Ids(evicted))
  }

  class GreedyBudgetScheduler {
    const thresholds: Thresholds
    var loadedScores: map<string, real>

    constructor (thresholds: Thresholds)
      ensures this.thresholds == thresholds && loadedScores == map[]
    {
      this.thresholds := thresholds;
      loadedScores := map[];
    }

    method Schedule(loaded: seq<Fragment>, candidates: seq<Fragment>, candidateScores: seq<real>, b: Budget)
      returns (d: Decision)
      modifies this
      ensures (d, loadedScores) == Decide(thresholds, old(loadedScores), loaded, Zip(candidates, candidateScores),
                                          AvailableForWorkspace(b))
    {
      hide Kept, Taken, Missing, Remember, Fragments, Ids, Zip;
      var budget := AvailableForWorkspace(b);
      var kept := KeepLoaded(loaded, budget);
      var used := Total(kept);
      var admitted := TakeOffers(loaded, candidates, candidateScores, budget, used);
      var evicted := EvictedFrom(loaded, kept + admitted);
      loadedScores := loadedScores - Ids(evicted);
      d := Decision(kept + admitted, admitted, evicted);
    }

    method KeepLoaded(loaded: seq<Fragment>, budget: nat) returns (selected: seq<Fragment>)
      ensures selected == Kept(loaded, loadedScores, thresholds.unload, budget, 0)
    {
      selected := [];
      var used: nat := 0;
      assert loaded[0..] == loaded;
      for k := 0 to |loaded|
        invariant selected + Kept(loaded[k..], loadedScores, thresholds.unload, budget, used)
               == Kept(loaded, loadedScores, thresholds.unload, budget, 0)
      {
        var frag := loaded[k];
        assert loaded[k..][0] == frag && loaded[k..][1..] == loaded[k + 1..];
        var score := Remembered(loadedScores, frag.id);
        if score >= thresholds.unload && used + frag.tokens <= budget {
          used := used + frag.tokens;
          AppendAssociative(selected, [frag], Kept(loaded[k + 1..], loadedScores, thresholds.unload, budget, used));
          selected := selected + [frag];
        }
      }
      assert loaded[|loaded|..] == [];
    }

    // Loaded fragments whose id is no longer selected.
    method EvictedFrom(loaded: seq<Fragment>, keep: seq<Fragment>) returns (evicted: seq<Fragment>)
      ensures evicted == Missing(loaded, Ids(keep))
    {
      evicted := [];
      var ids := Ids(keep);
      assert loaded[0..] == loaded;
      for k := 0 to |loaded|
        invariant evicted + Missing(loaded[k..], ids) == Missing(loaded, ids)
      {
        assert loaded[k..][0] == loaded[k] && loaded[k..][1..] == loaded[k + 1..];
        var more := if loaded[k].id in ids then [] else [loaded[k]];
        AppendAssociative(evicted, more, Missing(loaded[k + 1..], ids));
        evicted := evicted + more;
      }
      assert loaded[|loaded|..] == [];
    }

    method TakeOffers(loaded: seq<Fragment>, candidates: seq<Fragment>, candidateScores: seq<real>, budget: nat, start: nat)
      returns (admitted: seq<Fragment>)
      modifies this
      ensures var taken := Taken(Zip(candidates, candidateScores), Ids(loaded), thresholds.load, budget, start);
              admitted == Fragments(taken) && loadedScores == Remember(old(loadedScores), taken)
    {
      var used: nat := start;
      admitted := [];
      ghost var offers := Zip(candidates, candidateScores);
      ghost var taken := Taken(offers, Ids(loaded), thresholds.load, budget, start);
      ghost var done := [];
      var n := if |candidates| <= |candidateScores| then |candidates| else |candidateScores|;
      for k := 0 to n
        invariant done + Taken(offers[k..], Ids(loaded), thresholds.load, budget, used) == taken
        invariant admitted == Fragments(done) && loadedScores == Remember(old(loadedScores), done)
      {
        var candidate, score := candidates[k], candidateScores[k];
        assert offers[k..][0] == (candidate, score) && offers[k..][1..] == offers[k + 1..];
        if candidate.id !in Ids(loaded) && score >= thresholds.load && used + candidate.tokens <= budget {
          used := used + candidate.tokens;
          AppendAssociative(done, [(candidate, score)], Taken(offers[k + 1..], Ids(loaded), thresholds.load, budget, used));
          RememberSnoc(old(loadedScores), done, (candidate, score));
          loadedScores := loadedScores[candidate.id := score];
          admitted := admitted + [candidate];
          done := done + [(candidate, score)];
          assert admitted == Fragments(done);
        }
      }
      assert offers[n..] == [] && done == taken;
    }
  }

  lemma {:induction false} RememberSnoc(scores: map<string, real>, offers: seq<Offer>, o: Offer)
    ensures Remember(scores, offers + [o]) == Remember(scores, offers)[o.0.id := o.1]
    decreases |offers|
  {
    if offers == [] {
      assert offers + [o] == [o];
      assert Remember(scores, [o]) == Remember(scores[o.0.id := o.1], [o][1..]);
    } else {
      assert (offers + [o])[0] == offers[0] && (offers + [o])[1..] == offers[1..] + [o];
      RememberSnoc(scores[offers[0].0.id := offers[0].1], offers[1..], o);
    }
  }

  // ---------- a settled workspace ----------

  // Distinct fragments within budget, each with a remembered score that admits it.
  ghost predicate Settled(t: Thresholds, budget: nat, loaded: seq<Fragment>, scores: map<string, real>) {
    && DistinctIds(loaded)
    && Total(loaded) <= budget
    && forall f | f in loaded :: f.id in scores && scores[f.id] >= t.load
  }

  lemma {:induction false} KeepsAll(frags: seq<Fragment>, scores: map<string, real>, unload: real, budget: nat, used: nat)
    requires used + Total(frags) <= budget
    requires forall f | f in frags :: f.id in scores && scores[f.id] >= unload
    ensures Kept(frags, scores, unload, budget, used) == frags
  {
    if frags != [] {
      KeepsAll(frags[1..], scores, unload, budget, used + frags[0].tokens);
    }
  }

  // What is taken fits and is good enough.
  ghost predicate Fits(taken: seq<Offer>, load: real, budget: nat, used: nat) {
    used + Total(Fragments(taken)) <= budget && forall o | o in taken :: o.1 >= load
  }

  lemma {:induction false} TakenFits(offers: seq<Offer>, loaded: set<string>, load: real, budget: nat, used: nat)
    requires used <= budget
    ensures Fits(Taken(offers, loaded, load, budget, used), load, budget, used)
  {
    if offers != [] {
      var o, rest := offers[0], offers[1..];
      var fits := o.0.id !in loaded && o.1 >= load && used + o.0.tokens <= budget;
      var more := if fits then used + o.0.tokens else used;
      var tail := Taken(rest, loaded, load, budget, more);
      TakenFits(rest, loaded, load, budget, more);
      assert Taken(offers, loaded, load, budget, used) == if fits then [o] + tail else tail;
      hide *;
      if fits { FitsTaken(o, tail, load, budget, used); }
    }
  }

  lemma FitsTaken(o: Offer, tail: seq<Offer>, load: real, budget: nat, used: nat)
    requires o.1 >= load && Fits(tail, load, budget, used + o.0.tokens)
    ensures Fits([o] + tail, load, budget, used)
  {
    FragmentsCons(o, tail);
    hide Total, Fragments;
  }

  // What is taken was offered and not loaded; with distinct offers it is distinct.
  ghost predicate Apart(taken: seq<Offer>, offers: seq<Offer>, loaded: set<string>) {
    && Ids(Fragments(taken)) <= Ids(Fragments(offers)) && Ids(Fragments(taken)) !! loaded
    && (DistinctIds(Fragments(offers)) ==> DistinctIds(Fragments(taken)))
  }

  lemma {:induction false} TakenApart(offers: seq<Offer>, loaded: set<string>, load: real, budget: nat, used: nat)
    ensures Apart(Taken(offers, loaded, load, budget, used), offers, loaded)
  {
    if offers != [] {
      var o, rest := offers[0], offers[1..];
      var fits := o.0.id !in loaded && o.1 >= load && used + o.0.tokens <= budget;
      var more := if fits then used + o.0.tokens else used;
      var tail := Taken(rest, loaded, load, budget, more);
      TakenApart(rest, loaded, load, budget, more);
      assert offers == [o] + rest;
      assert Taken(offers, loaded, load, budget, used) == if fits then [o] + tail else tail;
      hide *;
      if fits { ApartTaken(o, tail, rest, loaded); } else { ApartSkipped(o, tail, rest, loaded); }
    }
  }

  lemma ApartTaken(o: Offer, tail: seq<Offer>, rest: seq<Offer>, loaded: set<string>)
    requires Apart(tail, rest, loaded) && o.0.id !in loaded
    ensures Apart([o] + tail, [o] + rest, loaded)
  {
    FragmentsCons(o, rest);
    FragmentsCons(o, tail);
    hide Fragments, Ids, DistinctIds;
  }

  lemma ApartSkipped(o: Offer, tail: seq<Offer>, rest: seq<Offer>, loaded: set<string>)
    requires Apart(tail, rest, loaded)
    ensures Apart(tail, [o] + rest, loaded)
  {
    FragmentsCons(o, rest);
    hide Fragments, Ids, DistinctIds;
  }

  lemma FragmentsCons(o: Offer, rest: seq<Offer>)
    ensures var all := Fragments([o] + rest);
            && all != [] && all[0] == o.0 && all[1..] == Fragments(rest)
            && Total(all) == o.0.tokens + Total(Fragments(rest)) && Ids(all) == {o.0.id} + Ids(Fragments(rest))
            && (DistinctIds(all) <==> o.0.id !in Ids(Fragments(rest)) && DistinctIds(Fragments(rest)))
  {
    assert ([o] + rest)[1..] == rest;
  }

  // Ids offered end with one of their offered scores, and the others keep theirs.
  lemma {:induction false} RememberMeaning(scores: map<string, real>, offers: seq<Offer>, load: real, id: string)
    requires forall o | o in offers :: o.1 >= load
    ensures var after := Remember(scores, offers);
            if id in Ids(Fragments(offers)) then id in after && after[id] >= load
            else (id in after <==> id in scores) && (id in after ==> after[id] == scores[id])
    decreases |offers|
  {
    if offers != [] {
      var o, rest := offers[0], offers[1..];
      assert offers == [o] + rest;
      FragmentsCons(o, rest);
      RememberMeaning(scores[o.0.id := o.1], rest, load, id);
    }
  }

  lemma {:induction false} NothingMissing(frags: seq<Fragment>, kept: set<string>)
    requires forall f | f in frags :: f.id in kept
    ensures Missing(frags, kept) == []
  {
    if frags != [] { NothingMissing(frags[1..], kept); }
  }

  // From a settled workspace the scheduler evicts nothing, only appends, and stays settled.
  lemma {:induction false} NeverEvicts(t: Thresholds, scores: map<string, real>, loaded: seq<Fragment>, offers: seq<Offer>, budget: nat)
    requires t.load >= t.unload && Settled(t, budget, loaded, scores) && DistinctIds(Fragments(offers))
    ensures var (d, after) := Decide(t, scores, loaded, offers, budget);
            && d.evicted == [] && d.keep == loaded + d.admitted
            && Settled(t, budget, d.keep, after)
            && Ids(d.admitted) !! Ids(loaded)
  {
    KeepsAll(loaded, scores, t.unload, budget, 0);
    var taken := Taken(offers, Ids(loaded), t.load, budget, Total(loaded));
    var keep := loaded + Fragments(taken);
    TakenFits(offers, Ids(loaded), t.load, budget, Total(loaded));
    TakenApart(offers, Ids(loaded), t.load, budget, Total(loaded));
    IdsAppend(loaded, Fragments(taken));
    NothingMissing(loaded, Ids(keep));
    TotalAppend(loaded, Fragments(taken));
    SettledAfter(t, scores, loaded, taken);
    var after := Remember(scores, taken);
    assert Ids([]) == {} && after - {} == after;
    assert Decide(t, scores, loaded, offers, budget) == (Decision(keep, Fragments(taken), []), after);
    hide Decide, Kept, Taken, Missing, Remember;
  }

  lemma SettledAfter(t: Thresholds, scores: map<string, real>, loaded: seq<Fragment>, taken: seq<Offer>)
    requires DistinctIds(loaded) && DistinctIds(Fragments(taken)) && Ids(loaded) !! Ids(Fragments(taken))
    requires forall f | f in loaded :: f.id in scores && scores[f.id] >= t.load
    requires forall o | o in taken :: o.1 >= t.load
    ensures DistinctIds(loaded + Fragments(taken))
    ensures var after := Remember(scores, taken);
            forall f | f in loaded + Fragments(taken) :: f.id in after && after[f.id] >= t.load
  {
    var after := Remember(scores, taken);
    DistinctAppend(loaded, Fragments(taken));
    forall f | f in loaded + Fragments(taken) ensures f.id in after && after[f.id] >= t.load {
      RememberMeaning(scores, taken, t.load, f.id);
      if f !in loaded {
        assert f in Fragments(taken);
      }
    }
  }

  // An offer that is good enough and not loaded is refused only for lack of room.
  lemma {:induction false} RefusedForRoom(offers: seq<Offer>, loaded: set<string>, load: real, budget: nat, used: nat, o: Offer)
    requires o in offers && o.1 >= load && o.0.id !in loaded
    ensures var taken := Taken(offers, loaded, load, budget, used);
            o !in taken ==> used + Total(Fragments(taken)) + o.0.tokens > budget
  {
    var first, rest := offers[0], offers[1..];
    var fits := first.0.id !in loaded && first.1 >= load && used + first.0.tokens <= budget;
    var more := if fits then used + first.0.tokens else used;
    if o in rest {
      RefusedForRoom(rest, loaded, load, budget, more, o);
    }
  }

  // ---------- recall ----------

  datatype Hit = Hit(id: string, score: real)

  datatype Settings = Settings(thresholds: Thresholds, schedulerThresholds: Thresholds, budget: Budget, maxIterations: nat)

  // What a turn changes: the workspace, the scheduler's scores, and the ids admitted this turn.
  datatype Turn = Turn(loaded: seq<Fragment>, scores: map<string, real>, seen: set<string>)

  // Reading returns a fragment with the id that was asked for.
  ghost predicate Honest(read: string -> Option<Fragment>) {
    forall id :: read(id).Some? ==> read(id).value.id == id
  }

  function HitIds(hits: seq<Hit>): set<string> {
    if hits == [] then {} else {hits[0].id} + HitIds(hits[1..])
  }

  ghost predicate DistinctHits(hits: seq<Hit>) {
    hits == [] || (hits[0].id !in HitIds(hits[1..]) && DistinctHits(hits[1..]))
  }

  // The offers made to the scheduler, or None when a read fails.
  function Candidates(hits: seq<Hit>, load: real, seen: set<string>, read: string -> Option<Fragment>): Option<seq<Offer>> {
    if hits == [] then Some([])
    else if hits[0].score >= load && hits[0].id !in seen then
      match (read(hits[0].id), Candidates(hits[1..], load, seen, read))
      case (Some(f), Some(rest)) => Some([(f, hits[0].score)] + rest)
      case _ => None
    else Candidates(hits[1..], load, seen, read)
  }

  // One recall: the turn's new state and whether anything was admitted. A failed search or
  // read changes nothing.
  function Recall(c: Settings, s: Turn, hits: Option<seq<Hit>>, read: string -> Option<Fragment>): (Turn, Option<bool>) {
    match hits
    case None => (s, None)
    case Some(found) =>
      match Candidates(found, c.thresholds.load, s.seen, read)
      case None => (s, None)
      case Some(offers) =>
        if offers == [] then (s, Some(false))
        else
          var (d, after) := Decide(c.schedulerThresholds, s.scores, s.loaded, offers, AvailableForWorkspace(c.budget));
          (Turn(d.keep, after, s.seen + Ids(d.admitted)), Some(d.admitted != []))
  }

  // One stream of thinking steps, stopped by the first admission.
  function Stream(c: Settings, s: Turn, steps: seq<Option<seq<Hit>>>, read: string -> Option<Fragment>): (Turn, Option<bool>)
    decreases |steps|
  {
    if steps == [] then (s, Some(false))
    else
      match Recall(c, s, steps[0], read)
      case (next, Some(false)) => Stream(c, next, steps[1..], read)
      case stopped => stopped
  }

  // Thinking restarts until a stream admits nothing or the limit is reached.
  function Think(c: Settings, s: Turn, i: nat, thinking: nat -> seq<Option<seq<Hit>>>, read: string -> Option<Fragment>)
    : (Turn, Option<nat>)
    decreases c.maxIterations - i
  {
    if i >= c.maxIterations then (s, Some(i))
    else
      match Stream(c, s, thinking(i), read)
      case (next, None) => (next, None)
      case (next, Some(false)) => (next, Some(i + 1))
      case (next, Some(true)) => Think(c, next, i + 1, thinking, read)
  }

  // A whole turn from its recalls; the result counts the thinking iterations.
  function TurnOf(c: Settings, s: Turn, query: Option<seq<Hit>>, reasoning: bool, thinking: nat -> seq<Option<seq<Hit>>>,
                  read: string -> Option<Fragment>): (Turn, Option<nat>)
  {
    match Recall(c, s.(seen := {}), query, read)
    case (next, None) => (next, None)
    case (next, Some(_)) => if reasoning then Think(c, next, 0, thinking, read) else (next, Some(0))
  }

  class RecallOrchestrator {
    const settings: Settings
    const scheduler: GreedyBudgetScheduler
    var loaded: seq<Fragment>

    ghost predicate Valid()
      reads this
    {
      scheduler.thresholds == settings.schedulerThresholds
    }

    ghost function State(seen: set<string>): Turn
      reads this, scheduler
    {
      Turn(loaded, scheduler.loadedScores, seen)
    }

    constructor (settings: Settings)
      ensures Valid() && fresh(scheduler) && this.settings == settings
      ensures State({}) == Turn([], map[], {})
    {
      this.settings := settings;
      scheduler := new GreedyBudgetScheduler(settings.schedulerThresholds);
      loaded := [];
    }

    method DoRecall(hits: Option<seq<Hit>>, read: string -> Option<Fragment>, seen: set<string>)
      returns (r: Option<bool>, after: set<string>)
      requires Valid()
      modifies this, scheduler
      ensures Valid() && (State(after), r) == Recall(settings, old(State(seen)), hits, read)
    {
      after := seen;
      if hits.None? { return None, after; }
      var found := hits.value;
      var candidates, scores := [], [];
      ghost var offers, load := [], settings.thresholds.load;
      ghost var all := Candidates(found, load, seen, read);
      assert found[0..] == found && (all.Some? ==> [] + all.value == all.value);
      for k := 0 to |found|
        invariant |candidates| == |scores| && Zip(candidates, scores) == offers
        invariant match Candidates(found[k..], load, seen, read)
                  case None => all.None?
                  case Some(rest) => all == Some(offers + rest)
        invariant this.State(seen) == old(State(seen)) && Valid()
      {
        var hit := found[k];
        assert found[k..][0] == hit && found[k..][1..] == found[k + 1..];
        if hit.score >= settings.thresholds.load && hit.id !in seen {
          var fragment := read(hit.id);
          if fragment.None? { return None, after; }
          ghost var offer := (fragment.value, hit.score);
          candidates, scores := candidates + [fragment.value], scores + [hit.score];
          ghost var rest := Candidates(found[k + 1..], load, seen, read);
          if rest.Some? { AppendAssociative(offers, [offer], rest.value); }
          offers := offers + [offer];
          assert Zip(candidates, scores) == offers;
        }
      }
      assert found[|found|..] == [];
      assert Candidates([], load, seen, read) == Some([]);
      assert offers + [] == offers;
      if candidates == [] { return Some(false), after; }
      var d := scheduler.Schedule(loaded, candidates, scores, settings.budget);
      after := seen + Ids(d.admitted);
      loaded := d.keep;
      r := Some(d.admitted != []);
    }

    method RunTurn(query: Option<seq<Hit>>, reasoning: bool, thinking: nat -> seq<Option<seq<Hit>>>,
                   read: string -> Option<Fragment>) returns (iterations: Option<nat>, ghost seen: set<string>)
      requires Valid()
      modifies this, scheduler
      ensures Valid()
      ensures (State(seen), iterations) == TurnOf(settings, old(State({})), query, reasoning, thinking, read)
    {
      var r, seenThisTurn := DoRecall(query, read, {});
      seen := seenThisTurn;
      if r.None? { return None, seen; }
      var count := 0;
      if reasoning {
        ghost var goal := Think(settings, State(seenThisTurn), 0, thinking, read);
        for i := 0 to settings.maxIterations
          invariant Valid() && count == i
          invariant Think(settings, State(seenThisTurn), i, thinking, read) == goal
        {
          var steps := thinking(i);
          var k, admittedAny := 0, false;
          ghost var streamed := Stream(settings, State(seenThisTurn), steps, read);
          while k < |steps| && !admittedAny
            invariant Valid() && k <= |steps|
            invariant if admittedAny then streamed == (State(seenThisTurn), Some(true))
                      else streamed == Stream(settings, State(seenThisTurn), steps[k..], read)
          {
            assert steps[k..][0] == steps[k] && steps[k..][1..] == steps[k + 1..];
            r, seenThisTurn := DoRecall(steps[k], read, seenThisTurn);
            seen := seenThisTurn;
            if r.None? { return None, seen; }
            admittedAny := r.value;
            k := k + 1;
          }
          count := i + 1;
          if !admittedAny {
            break;
          }
        }
      }
      seen := seenThisTurn;
      iterations := Some(count);
    }
  }

  // ---------- over a whole turn ----------

  ghost predicate Sound(c: Settings) {
    c.schedulerThresholds.load >= c.schedulerThresholds.unload
  }

  ghost predicate TurnInv(c: Settings, s: Turn) {
    && Settled(c.schedulerThresholds, AvailableForWorkspace(c.budget), s.loaded, s.scores)
    && s.seen <= Ids(s.loaded)
  }

  lemma {:induction false} OffersDistinct(hits: seq<Hit>, load: real, seen: set<string>, read: string -> Option<Fragment>)
    requires Honest(read) && DistinctHits(hits) && Candidates(hits, load, seen, read).Some?
    ensures var offers := Candidates(hits, load, seen, read).value;
            DistinctIds(Fragments(offers)) && Ids(Fragments(offers)) <= HitIds(hits) - seen
  {
    if hits != [] {
      var hit, more := hits[0], hits[1..];
      OffersDistinct(more, load, seen, read);
      if hit.score >= load && hit.id !in seen {
        var rest := Candidates(more, load, seen, read).value;
        FragmentsCons((read(hit.id).value, hit.score), rest);
      }
    }
  }

  // A recall only appends, keeps the invariant, and reports whether it appended.
  lemma {:induction false} RecallKeeps(c: Settings, s: Turn, hits: Option<seq<Hit>>, read: string -> Option<Fragment>)
    requires Sound(c) && TurnInv(c, s) && Honest(read) && (hits.Some? ==> DistinctHits(hits.value))
    ensures var (next, r) := Recall(c, s, hits, read);
            && TurnInv(c, next) && s.loaded <= next.loaded
            && (r.Some? ==> (r.value <==> |next.loaded| > |s.loaded|))
            && Ids(next.loaded) - Ids(s.loaded) <= next.seen
  {
    if hits.Some? {
      var offers := Candidates(hits.value, c.thresholds.load, s.seen, read);
      if offers.Some? && offers.value != [] {
        OffersDistinct(hits.value, c.thresholds.load, s.seen, read);
        var budget := AvailableForWorkspace(c.budget);
        NeverEvicts(c.schedulerThresholds, s.scores, s.loaded, offers.value, budget);
        var d := Decide(c.schedulerThresholds, s.scores, s.loaded, offers.value, budget).0;
        IdsAppend(s.loaded, d.admitted);
        hide Decide, Candidates;
      }
    }
  }

  ghost predicate HonestSearch(steps: seq<Option<seq<Hit>>>) {
    forall i :: 0 <= i < |steps| && steps[i].Some? ==> DistinctHits(steps[i].value)
  }

  lemma {:induction false} StreamKeeps(c: Settings, s: Turn, steps: seq<Option<seq<Hit>>>, read: string -> Option<Fragment>)
    requires Sound(c) && TurnInv(c, s) && Honest(read) && HonestSearch(steps)
    ensures var (next, r) := Stream(c, s, steps, read);
            && TurnInv(c, next) && s.loaded <= next.loaded
            && (r.Some? ==> (r.value <==> |next.loaded| > |s.loaded|))
    decreases |steps|
  {
    hide Recall, TurnInv;
    if steps != [] {
      RecallKeeps(c, s, steps[0], read);
      var (next, r) := Recall(c, s, steps[0], read);
      if r == Some(false) {
        StreamKeeps(c, next, steps[1..], read);
      }
    }
  }

  // Each restart was paid for by an admission.
  lemma {:induction false} ThinkKeeps(c: Settings, s: Turn, i: nat, thinking: nat -> seq<Option<seq<Hit>>>,
                                      read: string -> Option<Fragment>)
    requires Sound(c) && TurnInv(c, s) && Honest(read) && forall k :: HonestSearch(thinking(k))
    requires i <= c.maxIterations
    ensures var (next, n) := Think(c, s, i, thinking, read);
            && TurnInv(c, next) && s.loaded <= next.loaded
            && (n.Some? ==> i <= n.value <= c.maxIterations && n.value <= i + 1 + |next.loaded| - |s.loaded|)
            && (n.Some? && i < c.maxIterations ==> i < n.value)
    decreases c.maxIterations - i
  {
    hide Stream, TurnInv;
    if i < c.maxIterations {
      StreamKeeps(c, s, thinking(i), read);
      var (next, r) := Stream(c, s, thinking(i), read);
      if r == Some(true) {
        ThinkKeeps(c, next, i + 1, thinking, read);
      }
    }
  }

  // A whole turn only appends: nothing is evicted, the budget holds, no id is admitted
  // twice, and all but one of the thinking iterations admitted something.
  lemma {:induction false} TurnKeeps(c: Settings, s: Turn, query: Option<seq<Hit>>, reasoning: bool, thinking: nat -> seq<Option<seq<Hit>>>,
                  read: string -> Option<Fragment>)
    requires Sound(c) && Honest(read) && HonestSearch([query]) && forall k :: HonestSearch(thinking(k))
    requires Settled(c.schedulerThresholds, AvailableForWorkspace(c.budget), s.loaded, s.scores)
    ensures var (next, n) := TurnOf(c, s, query, reasoning, thinking, read);
            && s.loaded <= next.loaded && DistinctIds(next.loaded)
            && HasRoom(c.budget, Total(next.loaded))
            && Settled(c.schedulerThresholds, AvailableForWorkspace(c.budget), next.loaded, next.scores)
            && (n.Some? ==> n.value <= c.maxIterations && n.value <= 1 + |next.loaded| - |s.loaded|)
            && (n.Some? ==> (n.value == 0 <==> !reasoning || c.maxIterations == 0))
  {
    hide Recall, Think;
    var start := s.(seen := {});
    assert [query][0] == query;
    RecallKeeps(c, start, query, read);
    var (next, r) := Recall(c, start, query, read);
    if r.Some? && reasoning {
      ThinkKeeps(c, next, 0, thinking, read);
    }
  }

  // One turn's searches and reads.
  datatype Script = Script(query: Option<seq<Hit>>, reasoning: bool, thinking: nat -> seq<Option<seq<Hit>>>,
                           read: string -> Option<Fragment>)

  ghost predicate HonestScript(t: Script) {
    Honest(t.read) && HonestSearch([t.query]) && forall k :: HonestSearch(t.thinking(k))
  }

  function Session(c: Settings, turns: seq<Script>): Turn {
    if turns == [] then Turn([], map[], {})
    else
      var t := turns[|turns| - 1];
      TurnOf(c, Session(c, turns[..|turns| - 1]), t.query, t.reasoning, t.thinking, t.read).0
  }

  // Over a whole session from the empty workspace, every later workspace extends every
  // earlier one and stays within budget.
  lemma {:induction false} SessionOnlyAppends(c: Settings, turns: seq<Script>, k: nat)
    requires Sound(c) && k <= |turns| && forall i :: 0 <= i < |turns| ==> HonestScript(turns[i])
    ensures Session(c, turns[..k]).loaded <= Session(c, turns).loaded
    ensures Total(Session(c, turns).loaded) <= AvailableForWorkspace(c.budget)
    ensures Settled(c.schedulerThresholds, AvailableForWorkspace(c.budget), Session(c, turns).loaded, Session(c, turns).scores)
    decreases |turns|
  {
    hide TurnOf;
    if k == |turns| {
      assert turns[..k] == turns;
    }
    if turns != [] {
      var n := |turns| - 1;
      var most, t := turns[..n], turns[n];
      var j := if k <= n then k else n;
      SessionOnlyAppends(c, most, j);
      assert most[..j] == turns[..j];
      assert HonestScript(t);
      TurnKeeps(c, Session(c, most), t.query, t.reasoning, t.thinking, t.read);
    }
  }
}
