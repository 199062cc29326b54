// Which hits one recall loads: exactly the good new ones that fit into what the hits before
// them leave of the budget.
module RecallAdmission {
  import opened Text
  import opened Scheduler

  lemma {:induction false} TakenAppend(a: seq<Offer>, b: seq<Offer>, loaded: set<string>, load: real, budget: nat, used: nat)
    ensures var first := Taken(a, loaded, load, budget, used);
            var more := Taken(b, loaded, load, budget, used + Total(Fragments(first)));
            Taken(a + b, loaded, load, budget, used) == first + more
  {
    if a == [] {
      assert a + b == b;
    } else {
      var o, rest := a[0], a[1..];
      assert (a + b)[0] == o && (a + b)[1..] == rest + b;
      if o.0.id !in loaded && o.1 >= load && used + o.0.tokens <= budget {
        TakenAppend(rest, b, loaded, load, budget, used + o.0.tokens);
        FragmentsCons(o, Taken(rest, loaded, load, budget, used + o.0.tokens));
      } else {
        TakenAppend(rest, b, loaded, load, budget, used);
      }
    }
  }

  lemma {:induction false} CandidatesAppend(a: seq<Hit>, b: seq<Hit>, load: real, seen: set<string>, read: string -> Option<Fragment>)
    ensures Candidates(a + b, load, seen, read)
         == match (Candidates(a, load, seen, read), Candidates(b, load, seen, read))
            case (Some(x), Some(y)) => Some(x + y)
            case _ => None
  {
    if a == [] {
      assert a + b == b;
      var y := Candidates(b, load, seen, read);
      if y.Some? { assert [] + y.value == y.value; }
    } else {
      assert (a + b)[0] == a[0] && (a + b)[1..] == a[1..] + b;
      CandidatesAppend(a[1..], b, load, seen, read);
      var x, y := Candidates(a[1..], load, seen, read), Candidates(b, load, seen, read);
      if x.Some? && y.Some? && read(a[0].id).Some? {
        var o := (read(a[0].id).value, a[0].score);
        assert [o] + (x.value + y.value) == [o] + x.value + y.value;
      }
    }
  }

  lemma {:induction false} HitIdsAppend(a: seq<Hit>, b: seq<Hit>)
    ensures HitIds(a + b) == HitIds(a) + HitIds(b)
    ensures DistinctHits(a + b) ==> DistinctHits(a) && DistinctHits(b) && HitIds(a) !! HitIds(b)
  {
    if a == [] {
      assert a + b == b;
    } else {
      assert (a + b)[0] == a[0] && (a + b)[1..] == a[1..] + b;
      HitIdsAppend(a[1..], b);
    }
  }

  // the offers of which a recall from `s` takes, and what it takes.
  function Admitted(c: Settings, s: Turn, offers: seq<Offer>): seq<Offer> {
    Taken(offers, Ids(s.loaded), c.schedulerThresholds.load, AvailableForWorkspace(c.budget), Total(s.loaded))
  }

  lemma RecallLoads(c: Settings, s: Turn, hits: seq<Hit>, read: string -> Option<Fragment>)
    requires Sound(c) && TurnInv(c, s) && Honest(read) && DistinctHits(hits)
    ensures var offers := Candidates(hits, c.thresholds.load, s.seen, read);
            && Recall(c, s, Some(hits), read).1.Some? == offers.Some?
            && (offers.Some? ==>
                  Recall(c, s, Some(hits), read).0.loaded == s.loaded + Fragments(Admitted(c, s, offers.value)))
  {
    var offers := Candidates(hits, c.thresholds.load, s.seen, read);
    if offers.Some? {
      OffersDistinct(hits, c.thresholds.load, s.seen, read);
      var budget := AvailableForWorkspace(c.budget);
      KeepsAll(s.loaded, s.scores, c.schedulerThresholds.unload, budget, 0);
      NeverEvicts(c.schedulerThresholds, s.scores, s.loaded, offers.value, budget);
      if offers.value == [] {
        assert Admitted(c, s, []) == [] && s.loaded + [] == s.loaded;
      }
      hide Candidates, Taken, Kept, Missing, Remember;
    }
  }

  // A hit that is good enough to be offered, and to be taken.
  predicate Good(c: Settings, h: Hit) {
    h.score >= c.thresholds.load && h.score >= c.schedulerThresholds.load
  }

  lemma {:induction false} AdmittedParts(c: Settings, s: Turn, x: seq<Offer>, m: seq<Offer>, y: seq<Offer>)
    ensures var loaded, load, budget := Ids(s.loaded), c.schedulerThresholds.load, AvailableForWorkspace(c.budget);
            var tx := Admitted(c, s, x);
            var left := Total(s.loaded + Fragments(tx));
            var tm := Taken(m, loaded, load, budget, left);
            var ty := Taken(y, loaded, load, budget, left + Total(Fragments(tm)));
            Admitted(c, s, x + m + y) == tx + (tm + ty)
  {
    var loaded, load, budget, used := Ids(s.loaded), c.schedulerThresholds.load, AvailableForWorkspace(c.budget), Total(s.loaded);
    var tx := Taken(x, loaded, load, budget, used);
    hide Taken, Fragments, Ids, Total;
    TotalAppend(s.loaded, Fragments(tx));
    TakenAppend(x, m + y, loaded, load, budget, used);
    TakenAppend(m, y, loaded, load, budget, used + Total(Fragments(tx)));
    assert x + m + y == x + (m + y);
  }

  lemma FragmentsAppend(a: seq<Offer>, b: seq<Offer>)
    ensures Fragments(a + b) == Fragments(a) + Fragments(b)
  {
    hide *;
  }

  lemma IdsOfParts(loaded: seq<Fragment>, tx: seq<Offer>, tm: seq<Offer>, ty: seq<Offer>)
    ensures Ids(loaded + Fragments(tx + (tm + ty)))
         == Ids(loaded) + Ids(Fragments(tx)) + Ids(Fragments(tm)) + Ids(Fragments(ty))
  {
    hide *;
    FragmentsAppend(tx, tm + ty);
    FragmentsAppend(tm, ty);
    IdsAppend(loaded, Fragments(tx) + (Fragments(tm) + Fragments(ty)));
    IdsAppend(Fragments(tx), Fragments(tm) + Fragments(ty));
    IdsAppend(Fragments(tm), Fragments(ty));
  }

  // What the offers make of one hit between others.
  lemma AdmittedAround(c: Settings, s: Turn, x: seq<Offer>, m: seq<Offer>, y: seq<Offer>, id: string, left: nat)
    requires id !in Ids(Fragments(x)) && id !in Ids(Fragments(y)) && id !in Ids(s.loaded) && |m| <= 1
    requires m != [] ==> m[0].0.id == id
    requires left == Total(s.loaded + Fragments(Admitted(c, s, x)))
    ensures id in Ids(s.loaded + Fragments(Admitted(c, s, x + m + y)))
       <==> m != [] && m[0].1 >= c.schedulerThresholds.load && left + m[0].0.tokens <= AvailableForWorkspace(c.budget)
  {
    hide Taken, Fragments, Ids, Total;
    var loaded, load, budget := Ids(s.loaded), c.schedulerThresholds.load, AvailableForWorkspace(c.budget);
    AdmittedParts(c, s, x, m, y);
    var tm := Taken(m, loaded, load, budget, left);
    var after := left + Total(Fragments(tm));
    IdsOfParts(s.loaded, Admitted(c, s, x), tm, Taken(y, loaded, load, budget, after));
    TakenApart(x, loaded, load, budget, Total(s.loaded));
    TakenApart(y, loaded, load, budget, after);
    TakenOne(m, loaded, load, budget, left, id);
  }

  lemma TakenOne(m: seq<Offer>, loaded: set<string>, load: real, budget: nat, used: nat, id: string)
    requires |m| <= 1 && id !in loaded && (m != [] ==> m[0].0.id == id)
    ensures id in Ids(Fragments(Taken(m, loaded, load, budget, used)))
       <==> m != [] && m[0].1 >= load && used + m[0].0.tokens <= budget
  {
    if m != [] {
      var none: seq<Offer> := [];
      assert m[1..] == none;
      assert Taken(none, loaded, load, budget, used) == none;
    }
  }

  // The offers a list of hits makes, around one of them that is not loaded.
  ghost predicate OffersAround(x: seq<Offer>, m: seq<Offer>, y: seq<Offer>, h: Hit, load: real, read: string -> Option<Fragment>) {
    && h.id !in Ids(Fragments(x)) && h.id !in Ids(Fragments(y))
    && (h.score >= load ==> read(h.id).Some?)
    && m == if h.score >= load then [(read(h.id).value, h.score)] else []
  }

  lemma CandidatesAround(a: seq<Hit>, h: Hit, b: seq<Hit>, load: real, seen: set<string>, read: string -> Option<Fragment>)
    requires Honest(read) && DistinctHits(a + [h] + b) && h.id !in seen
    requires Candidates(a + [h] + b, load, seen, read).Some?
    ensures Candidates(a, load, seen, read).Some? && DistinctHits(a)
    ensures exists m, y ::
              && Candidates(a + [h] + b, load, seen, read) == Some(Candidates(a, load, seen, read).value + m + y)
              && OffersAround(Candidates(a, load, seen, read).value, m, y, h, load, read)
  {
    hide Candidates, Fragments, Ids, DistinctIds, DistinctHits, HitIds;
    CandidatesAppend(a + [h], b, load, seen, read);
    CandidatesAppend(a, [h], load, seen, read);
    HitIdsAppend(a + [h], b);
    HitIdsAppend(a, [h]);
    OffersDistinct(a, load, seen, read);
    OffersDistinct(b, load, seen, read);
    OneCandidate(h, load, seen, read);
    var x, m, y := Candidates(a, load, seen, read).value, Candidates([h], load, seen, read).value, Candidates(b, load, seen, read).value;
    assert OffersAround(x, m, y, h, load, read);
  }

  // A hit that is not loaded yet is loaded by a recall whose reads succeed exactly when it
  // is at or above both load thresholds and fits into what the hits before it leave.
  lemma {:induction false} RecallAdmitsExactly(c: Settings, s: Turn, a: seq<Hit>, h: Hit, b: seq<Hit>, read: string -> Option<Fragment>)
    requires Sound(c) && TurnInv(c, s) && Honest(read) && DistinctHits(a + [h] + b)
    requires Recall(c, s, Some(a + [h] + b), read).1.Some? && h.id !in Ids(s.loaded)
    ensures h.score >= c.thresholds.load ==> read(h.id).Some?
    ensures h.id in Ids(Recall(c, s, Some(a + [h] + b), read).0.loaded)
       <==> && Good(c, h)
            && HasRoom(c.budget, Total(Recall(c, s, Some(a), read).0.loaded) + read(h.id).value.tokens)
  {
    hide Candidates, Recall, Admitted, Fragments, Ids, Total, DistinctIds, DistinctHits, HasRoom, AvailableForWorkspace;
    var load := c.thresholds.load;
    RecallLoads(c, s, a + [h] + b, read);
    CandidatesAround(a, h, b, load, s.seen, read);
    RecallLoads(c, s, a, read);
    hide TurnInv, Sound;
    var x := Candidates(a, load, s.seen, read).value;
    var m, y :| Candidates(a + [h] + b, load, s.seen, read) == Some(x + m + y) && OffersAround(x, m, y, h, load, read);
    var left := Total(Recall(c, s, Some(a), read).0.loaded);
    if m != [] {
      RoomMeaning(c.budget, left + read(h.id).value.tokens);
      assert read(h.id).value.id == h.id;
    }
    AdmittedAround(c, s, x, m, y, h.id, left);
  }

  lemma OneCandidate(h: Hit, load: real, seen: set<string>, read: string -> Option<Fragment>)
    requires Honest(read)
    ensures HitIds([h]) == {h.id}
    ensures var m := Candidates([h], load, seen, read);
            if h.score >= load && h.id !in seen
            then (if read(h.id).Some? then m == Some([(read(h.id).value, h.score)]) else m.None?)
            else m == Some([])
  {
    var none: seq<Hit> := [];
    assert [h][1..] == none;
    assert Candidates(none, load, seen, read) == Some([]);
    assert HitIds(none) == {};
    if read(h.id).Some? {
      var o := (read(h.id).value, h.score);
      assert [o] + [] == [o];
    }
  }

  // A hit whose fragment a recall asks for.
  predicate Asked(h: Hit, load: real, seen: set<string>) {
    h.score >= load && h.id !in seen
  }

  // `o` is what reading one of the hits asked for gives.
  ghost predicate OfHit(o: Offer, hits: seq<Hit>, load: real, seen: set<string>, read: string -> Option<Fragment>) {
    exists h :: h in hits && Asked(h, load, seen) && read(h.id) == Some(o.0) && h.score == o.1
  }

  lemma {:induction false} CandidatesMeaning(hits: seq<Hit>, load: real, seen: set<string>, read: string -> Option<Fragment>)
    ensures var offers := Candidates(hits, load, seen, read);
            && (offers.None? <==> exists h :: h in hits && Asked(h, load, seen) && read(h.id).None?)
            && (offers.Some? ==> forall o :: o in offers.value ==> OfHit(o, hits, load, seen, read))
  {
    if hits != [] {
      var first, rest := hits[0], hits[1..];
      CandidatesMeaning(rest, load, seen, read);
      var offers, more := Candidates(hits, load, seen, read), Candidates(rest, load, seen, read);
      assert hits == [first] + rest;
      if offers.Some? {
        forall o | o in offers.value ensures OfHit(o, hits, load, seen, read) {
          if o in more.value {
            var h :| h in rest && Asked(h, load, seen) && read(h.id) == Some(o.0) && h.score == o.1;
            assert h in hits;
          }
        }
      }
    }
  }

  lemma {:induction false} TakenFrom(offers: seq<Offer>, loaded: set<string>, load: real, budget: nat, used: nat)
    ensures forall o :: o in Taken(offers, loaded, load, budget, used) ==> o in offers && o.1 >= load
  {
    if offers != [] {
      var o, rest := offers[0], offers[1..];
      TakenFrom(rest, loaded, load, budget, used + o.0.tokens);
      TakenFrom(rest, loaded, load, budget, used);
    }
  }

  // What a recall newly loads are the fragments of hits at or above both thresholds; a
  // recall fails, and then changes nothing, exactly when a hit it asks for cannot be read.
  lemma {:induction false} NewlyLoadedWereHits(c: Settings, s: Turn, hits: seq<Hit>, read: string -> Option<Fragment>)
    requires Sound(c) && TurnInv(c, s) && Honest(read) && DistinctHits(hits)
    ensures var (next, r) := Recall(c, s, Some(hits), read);
            && (r.None? <==> exists h :: h in hits && Asked(h, c.thresholds.load, s.seen) && read(h.id).None?)
            && (r.None? ==> next == s)
            && forall f :: f in next.loaded && f !in s.loaded ==>
                 exists h :: h in hits && Good(c, h) && h.id !in s.seen && read(h.id) == Some(f)
  {
    var load := c.thresholds.load;
    CandidatesMeaning(hits, load, s.seen, read);
    RecallLoads(c, s, hits, read);
    var offers := Candidates(hits, load, s.seen, read);
    var (next, r) := Recall(c, s, Some(hits), read);
    if offers.Some? {
      var taken := Admitted(c, s, offers.value);
      TakenFrom(offers.value, Ids(s.loaded), c.schedulerThresholds.load, AvailableForWorkspace(c.budget), Total(s.loaded));
      hide Candidates, Recall, Taken, Fragments;
      forall f | f in next.loaded && f !in s.loaded
        ensures exists h :: h in hits && Good(c, h) && h.id !in s.seen && read(h.id) == Some(f)
      {
        assert f in Fragments(taken);
        var i :| 0 <= i < |taken| && taken[i].0 == f;
        assert taken[i] in taken && OfHit(taken[i], hits, load, s.seen, read);
      }
    }
  }

  // ---------- what the scheduler keeps ----------

  lemma {:induction false} KeptAppend(a: seq<Fragment>, b: seq<Fragment>, scores: map<string, real>, unload: real, budget: nat, used: nat)
    ensures Kept(a + b, scores, unload, budget, used)
         == Kept(a, scores, unload, budget, used)
            + Kept(b, scores, unload, budget, used + Total(Kept(a, scores, unload, budget, used)))
  {
    if a == [] {
      assert a + b == b;
    } else {
      var f, rest := a[0], a[1..];
      assert (a + b)[0] == f && (a + b)[1..] == rest + b;
      if Remembered(scores, f.id) >= unload && used + f.tokens <= budget {
        var more := used + f.tokens;
        KeptAppend(rest, b, scores, unload, budget, more);
        var tail := Kept(rest, scores, unload, budget, more);
        AppendAssociative([f], tail, Kept(b, scores, unload, budget, more + Total(tail)));
        assert Total([f] + tail) == f.tokens + Total(tail) by { assert ([f] + tail)[1..] == tail; }
      } else {
        KeptAppend(rest, b, scores, unload, budget, used);
      }
    }
  }

  lemma {:induction false} KeptIds(frags: seq<Fragment>, scores: map<string, real>, unload: real, budget: nat, used: nat)
    ensures Ids(Kept(frags, scores, unload, budget, used)) <= Ids(frags)
  {
    if frags != [] {
      KeptIds(frags[1..], scores, unload, budget, used + frags[0].tokens);
      KeptIds(frags[1..], scores, unload, budget, used);
    }
  }

  lemma {:induction false} MissingMeaning(frags: seq<Fragment>, kept: set<string>)
    ensures forall f :: f in Missing(frags, kept) <==> f in frags && f.id !in kept
  {
    if frags != [] { MissingMeaning(frags[1..], kept); }
  }

  lemma {:induction false} DistinctParts(a: seq<Fragment>, b: seq<Fragment>)
    requires DistinctIds(a + b)
    ensures DistinctIds(b) && Ids(a) !! Ids(b)
  {
    if a == [] {
      assert a + b == b;
    } else {
      assert (a + b)[0] == a[0] && (a + b)[1..] == a[1..] + b;
      IdsAppend(a[1..], b);
      DistinctParts(a[1..], b);
    }
  }

  lemma KeptOne(f: Fragment, scores: map<string, real>, unload: real, budget: nat, used: nat)
    ensures Kept([f], scores, unload, budget, used)
         == if Remembered(scores, f.id) >= unload && used + f.tokens <= budget then [f] else []
  {
    var none: seq<Fragment> := [];
    assert [f][1..] == none;
    assert [f] + none == [f];
  }

  lemma IdsOne(f: Fragment)
    ensures Ids([f]) == {f.id} && Ids([]) == {}
  {
  }

  lemma KeptAround(a: seq<Fragment>, f: Fragment, b: seq<Fragment>, scores: map<string, real>, unload: real, budget: nat)
    requires DistinctIds(a + [f] + b)
    ensures f.id in Ids(Kept(a + [f] + b, scores, unload, budget, 0))
       <==> && Remembered(scores, f.id) >= unload
            && Total(Kept(a, scores, unload, budget, 0)) + f.tokens <= budget
  {
    hide Kept, Ids, DistinctIds, Total;
    var first := Kept(a, scores, unload, budget, 0);
    var left := Total(first);
    var second := Kept([f], scores, unload, budget, left);
    var third := Kept(b, scores, unload, budget, left + Total(second));
    KeptOne(f, scores, unload, budget, left);
    KeptIds(a, scores, unload, budget, 0);
    KeptIds(b, scores, unload, budget, left + Total(second));
    KeptAppend(a, [f] + b, scores, unload, budget, 0);
    KeptAppend([f], b, scores, unload, budget, left);
    assert a + [f] + b == a + ([f] + b);
    IdsOne(f);
    DistinctParts(a, [f] + b);
    DistinctParts([f], b);
    IdsAppend([f], b);
    IdsAppend(first, second + third);
    IdsAppend(second, third);
  }

  // A loaded fragment stays exactly when its remembered score, or 1.0 if it has none, is
  // at or above the unload threshold and it fits into what those kept before it leave;
  // otherwise it is evicted and its score forgotten.
  lemma DecideKeepsExactly(t: Thresholds, scores: map<string, real>, a: seq<Fragment>, f: Fragment, b: seq<Fragment>,
                           offers: seq<Offer>, budget: nat)
    requires DistinctIds(a + [f] + b)
    ensures f.id in Ids(Decide(t, scores, a + [f] + b, offers, budget).0.keep)
       <==> && (if f.id in scores then scores[f.id] else 1.0) >= t.unload
            && Total(Decide(t, scores, a, [], budget).0.keep) + f.tokens <= budget
    ensures f in Decide(t, scores, a + [f] + b, offers, budget).0.evicted
       <==> f.id !in Ids(Decide(t, scores, a + [f] + b, offers, budget).0.keep)
    ensures f.id !in Ids(Decide(t, scores, a + [f] + b, offers, budget).0.keep) ==>
              f.id !in Decide(t, scores, a + [f] + b, offers, budget).1
  {
    var loaded := a + [f] + b;
    var kept := Kept(loaded, scores, t.unload, budget, 0);
    var taken := Taken(offers, Ids(loaded), t.load, budget, Total(kept));
    var keep := kept + Fragments(taken);
    assert f in loaded;
    TakenApart(offers, Ids(loaded), t.load, budget, Total(kept));
    NothingTaken(t, scores, a, budget);
    assert Decide(t, scores, loaded, offers, budget).0 == Decision(keep, Fragments(taken), Missing(loaded, Ids(keep)));
    assert Decide(t, scores, loaded, offers, budget).1 == Remember(scores, taken) - Ids(Missing(loaded, Ids(keep)));
    hide Decide, Kept, Taken, Ids, Total, Missing, Fragments, DistinctIds, Remember;
    KeptAround(a, f, b, scores, t.unload, budget);
    IdsAppend(kept, Fragments(taken));
    MissingMeaning(loaded, Ids(keep));
  }

  lemma NothingTaken(t: Thresholds, scores: map<string, real>, a: seq<Fragment>, budget: nat)
    ensures Decide(t, scores, a, [], budget).0.keep == Kept(a, scores, t.unload, budget, 0)
  {
    var alone := Kept(a, scores, t.unload, budget, 0);
    assert alone + [] == alone;
  }
}
