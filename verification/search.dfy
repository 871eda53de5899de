/** `search_ads` in ads_pipeline.py: from the nearest-neighbour hits of a
    query embedding to a ranked list of stored ads. The embedding, the
    index search and the database query are not modelled; their results are
    inputs. A hit is an index into the list of stored ad ids (`-1` when the
    index has fewer vectors than were asked for) with its L2 distance;
    distances are modelled as integers. */
module Search {

  /** The valid hits of `cands`, in order, as the ad ids they point to */
  function ValidIds(cands: seq<int>, adIds: seq<string>): seq<string> {
    if cands == [] then []
    else (if 0 <= cands[0] < |adIds| then [adIds[cands[0]]] else []) + ValidIds(cands[1..], adIds)
  }

  lemma {:induction false} ValidIdsLength(cands: seq<int>, adIds: seq<string>)
    ensures |ValidIds(cands, adIds)| <= |cands|
  {
    if cands != [] {
      ValidIdsLength(cands[1..], adIds);
    }
  }

  /** One more hit adds its id, if valid, at the end */
  lemma {:induction false} ValidIdsSnoc(cands: seq<int>, i: nat, adIds: seq<string>)
    requires i < |cands|
    ensures ValidIds(cands[..i + 1], adIds)
            == ValidIds(cands[..i], adIds) + (if 0 <= cands[i] < |adIds| then [adIds[cands[i]]] else [])
    decreases i
  {
    if i > 0 {
      ValidIdsSnoc(cands[1..], i - 1, adIds);
      assert cands[1..][..i] == cands[..i + 1][1..];
      assert cands[1..][..i - 1] == cands[..i][1..];
    }
  }

  /** `s` with every element after its first occurrence dropped */
  function Dedup(s: seq<string>): (d: seq<string>)
    ensures forall x :: x in d <==> x in s
    ensures |d| <= |s|
  {
    if s == [] then []
    else
      var prefix := Dedup(s[..|s| - 1]);
      assert forall x :: x in s <==> x in s[..|s| - 1] || x == s[|s| - 1] by {
        assert s == s[..|s| - 1] + [s[|s| - 1]];
      }
      if s[|s| - 1] in prefix then prefix else prefix + [s[|s| - 1]]
  }

  predicate NoDuplicates(s: seq<string>) {
    forall a, b :: 0 <= a < b < |s| ==> s[a] != s[b]
  }

  /** The reference definition produces no duplicates */
  lemma {:induction false} DedupDistinct(s: seq<string>)
    ensures NoDuplicates(Dedup(s))
  {
    if s != [] {
      DedupDistinct(s[..|s| - 1]);
    }
  }

  /** A new element is kept at the end */
  lemma DedupSnocNew(s: seq<string>, x: string)
    requires x !in s
    ensures Dedup(s + [x]) == Dedup(s) + [x]
  {
    assert (s + [x])[..|s|] == s;
  }

  /** A repeated element is dropped */
  lemma DedupSnocOld(s: seq<string>, x: string)
    requires x in s
    ensures Dedup(s + [x]) == Dedup(s)
  {
    assert (s + [x])[..|s|] == s;
  }

  /** The id list after one more hit, against the reference definition */
  lemma SelectStep(cands: seq<int>, adIds: seq<string>, i: nat, r: seq<string>)
    requires i < |cands| && r == Dedup(ValidIds(cands[..i], adIds))
    ensures 0 <= cands[i] < |adIds| && adIds[cands[i]] !in r ==>
              r + [adIds[cands[i]]] == Dedup(ValidIds(cands[..i + 1], adIds))
    ensures !(0 <= cands[i] < |adIds| && adIds[cands[i]] !in r) ==>
              r == Dedup(ValidIds(cands[..i + 1], adIds))
  {
    var v := ValidIds(cands[..i], adIds);
    var w := ValidIds(cands[..i + 1], adIds);
    ValidIdsSnoc(cands, i, adIds);
    if 0 <= cands[i] < |adIds| {
      var x := adIds[cands[i]];
      assert w == v + [x];
      assert x in r <==> x in v;
      if x in v {
        DedupSnocOld(v, x);
      } else {
        DedupSnocNew(v, x);
      }
    } else {
      assert w == v + [];
      assert v + [] == v;
    }
  }

  /** Where the selection loop stops: after the first hit at the least,
      then at the first prefix that yields `k` ids, or at the end */
  predicate StopsAt(cands: seq<int>, adIds: seq<string>, k: int, n: nat) {
    && n <= |cands|
    && (cands != [] ==> n >= 1)
    && (n < |cands| ==> |Dedup(ValidIds(cands[..n], adIds))| == k)
    && NoStopBefore(cands, adIds, k, n)
  }

  /** No non-empty prefix shorter than `n` yields `k` ids */
  predicate NoStopBefore(cands: seq<int>, adIds: seq<string>, k: int, n: nat)
    requires n <= |cands|
  {
    forall m :: 1 <= m < n ==> |Dedup(ValidIds(cands[..m], adIds))| != k
  }

  /** The loop goes on past hit `i` only when the first `i` hits did not
      yield `k` ids */
  lemma NoStopStep(cands: seq<int>, adIds: seq<string>, k: int, i: nat)
    requires i < |cands| && NoStopBefore(cands, adIds, k, i)
    requires i >= 1 ==> |Dedup(ValidIds(cands[..i], adIds))| != k
    ensures NoStopBefore(cands, adIds, k, i + 1)
  {
  }

  /** The selection loop: walk the hits in order, keep the first occurrence
      of each valid hit's ad id, and stop right after the `k`-th id.
      `scanned` is the number of hits looked at. */
  method SelectIds(cands: seq<int>, adIds: seq<string>, k: int) returns (r: seq<string>, scanned: nat)
    ensures scanned <= |cands|
    ensures r == Dedup(ValidIds(cands[..scanned], adIds))
    ensures NoDuplicates(r)
    ensures k >= 1 ==> |r| <= k
    ensures scanned < |cands| ==> |r| == k
    ensures StopsAt(cands, adIds, k, scanned)
  {
    r := [];
    var i := 0;
    assert cands[..0] == [];
    // the `break` once `k` ids are kept is tested after each hit, so the
    // first hit is always looked at
    while i < |cands| && (i == 0 || |r| != k)
      invariant 0 <= i <= |cands|
      invariant r == Dedup(ValidIds(cands[..i], adIds))
      invariant k >= 1 ==> |r| <= k
      invariant NoStopBefore(cands, adIds, k, i)
    {
      SelectStep(cands, adIds, i, r);
      NoStopStep(cands, adIds, k, i);
      var idx := cands[i];
      if 0 <= idx < |adIds| && adIds[idx] !in r {
        r := r + [adIds[idx]];
      }
      i := i + 1;
    }
    scanned := i;
    DedupDistinct(ValidIds(cands[..scanned], adIds));
  }

  /** Hit `p` is in range and points at id `x` */
  predicate IsHit(cands: seq<int>, adIds: seq<string>, x: string, p: int) {
    0 <= p < |cands| && 0 <= cands[p] < |adIds| && adIds[cands[p]] == x
  }

  /** Hit `p` is the first that points at id `x` */
  predicate IsFirstHit(cands: seq<int>, adIds: seq<string>, x: string, p: int) {
    IsHit(cands, adIds, x, p) && forall q :: 0 <= q < p ==> !IsHit(cands, adIds, x, q)
  }

  /** Every id of `ValidIds` comes from a valid hit */
  lemma {:induction false} ValidIdsFromHits(cands: seq<int>, adIds: seq<string>, x: string)
    requires x in ValidIds(cands, adIds)
    ensures exists p :: IsHit(cands, adIds, x, p)
  {
    if IsHit(cands, adIds, x, 0) {
    } else {
      assert x in ValidIds(cands[1..], adIds);
      ValidIdsFromHits(cands[1..], adIds, x);
      var p :| IsHit(cands[1..], adIds, x, p);
      assert IsHit(cands, adIds, x, p + 1);
    }
  }

  /** The position of the first hit that points at id `x` */
  function FirstHit(cands: seq<int>, adIds: seq<string>, x: string): (p: nat)
    requires exists q :: IsHit(cands, adIds, x, q)
    ensures IsFirstHit(cands, adIds, x, p)
  {
    if IsHit(cands, adIds, x, 0) then 0
    else
      var q :| IsHit(cands, adIds, x, q);
      assert IsHit(cands[1..], adIds, x, q - 1);
      var p := FirstHit(cands[1..], adIds, x);
      forall q | 0 <= q < p + 1 ensures !IsHit(cands, adIds, x, q) {
        if q > 0 {
          assert cands[q] == cands[1..][q - 1];
          assert !IsHit(cands[1..], adIds, x, q - 1);
        }
      }
      p + 1
  }

  /** A stored ad as the database returns it */
  datatype Doc = Doc(adId: string, body: seq<(string, string)>)

  /** An ad with the relevance score attached */
  datatype Scored = Scored(doc: Doc, score: int)

  /** The position of the first occurrence of `x`, as `list.index` gives it */
  function IndexOf(s: seq<string>, x: string): (i: nat)
    requires x in s
    ensures i < |s| && s[i] == x
    ensures forall j :: 0 <= j < i ==> s[j] != x
  {
    if s[0] == x then 0 else 1 + IndexOf(s[1..], x)
  }

  /** The hydration loop: each returned doc whose id was selected gets the
      score at that id's position in `scores`; any other doc is skipped */
  function Hydrate(retrieved: seq<string>, scores: seq<int>, docs: seq<Doc>): (r: seq<Scored>)
    requires |retrieved| <= |scores|
    ensures |r| <= |docs|
    ensures forall j :: 0 <= j < |r| ==> r[j].doc in docs && r[j].doc.adId in retrieved
                                         && r[j].score == scores[IndexOf(retrieved, r[j].doc.adId)]
    ensures forall x :: multiset(r)[x] == if HydratedAs(x, retrieved, scores) then multiset(docs)[x.doc] else 0
  {
    if docs == [] then []
    else
      var rest := Hydrate(retrieved, scores, docs[1..]);
      assert docs == [docs[0]] + docs[1..];
      HydrateCountsCons(retrieved, scores, docs[0], docs[1..], rest);
      if docs[0].adId in retrieved then [Scored(docs[0], scores[IndexOf(retrieved, docs[0].adId)])] + rest
      else rest
  }

  /** One hydration step keeps the count of every scored document: a
      selected document adds one copy of itself with its score, any other
      adds nothing */
  lemma HydrateCountsCons(retrieved: seq<string>, scores: seq<int>, d: Doc, tail: seq<Doc>, rest: seq<Scored>)
    requires |retrieved| <= |scores|
    requires forall x :: multiset(rest)[x] == if HydratedAs(x, retrieved, scores) then multiset(tail)[x.doc] else 0
    ensures d.adId in retrieved ==>
              var r := [Scored(d, scores[IndexOf(retrieved, d.adId)])] + rest;
              forall x :: multiset(r)[x] == if HydratedAs(x, retrieved, scores) then multiset([d] + tail)[x.doc] else 0
    ensures d.adId !in retrieved ==>
              forall x :: multiset(rest)[x] == if HydratedAs(x, retrieved, scores) then multiset([d] + tail)[x.doc] else 0
  {
    assert multiset([d] + tail) == multiset{d} + multiset(tail);
    if d.adId in retrieved {
      var head := Scored(d, scores[IndexOf(retrieved, d.adId)]);
      assert multiset([head] + rest) == multiset{head} + multiset(rest);
    }
  }

  /** `x` is what hydrating its document produces: its id was selected
      and it carries the score at that id's position */
  predicate HydratedAs(x: Scored, retrieved: seq<string>, scores: seq<int>)
    requires |retrieved| <= |scores|
  {
    x.doc.adId in retrieved && x.score == scores[IndexOf(retrieved, x.doc.adId)]
  }

  /** As written: the distance row is indexed by the position in the
      de-duplicated id list, not by the position of the hit */
  function AsWrittenScores(retrieved: seq<string>, dists: seq<int>): (scores: seq<int>)
    requires |retrieved| <= |dists|
    ensures |scores| == |retrieved|
    ensures forall j :: 0 <= j < |scores| ==> scores[j] == dists[j]
  {
    dists[..|retrieved|]
  }

  /** Corrected: each selected id is scored with the distance of the
      first hit that points at it, the hit that selected it */
  function HitScores(retrieved: seq<string>, cands: seq<int>, dists: seq<int>, adIds: seq<string>): (scores: seq<int>)
    requires |cands| == |dists|
    requires forall j :: 0 <= j < |retrieved| ==> retrieved[j] in ValidIds(cands, adIds)
    ensures |scores| == |retrieved|
    ensures forall j :: 0 <= j < |scores| ==>
              exists p :: IsFirstHit(cands, adIds, retrieved[j], p) && scores[j] == dists[p]
  {
    if retrieved == [] then []
    else
      ValidIdsFromHits(cands, adIds, retrieved[0]);
      var p := FirstHit(cands, adIds, retrieved[0]);
      var rest := HitScores(retrieved[1..], cands, dists, adIds);
      var scores := [dists[p]] + rest;
      assert forall j :: 1 <= j < |scores| ==> retrieved[j] == retrieved[1..][j - 1] && scores[j] == rest[j - 1];
      scores
  }

  /** An ad stored twice in the id list shifts the as-written scores: with
      ids `["a", "a", "b"]`, distinct hits `[0, 1, 2]` at rising distances
      `[1, 2, 9]`, ad `b` is scored 2, the distance of the second `a`,
      although its own hit lies at distance 9 */
  lemma MisalignedScoreExample()
    ensures var hits, dists, adIds := [0, 1, 2], [1, 2, 9], ["a", "a", "b"];
            var retrieved := Dedup(ValidIds(hits, adIds));
            retrieved == ["a", "b"]
            && AsWrittenScores(retrieved, dists)[1] == 2
            && HitScores(retrieved, hits, dists, adIds)[1] == 9
            && adIds[hits[2]] == "b" && dists[2] == 9
  {
    ExampleIds();
    ExampleDedup();
  }

  lemma ExampleIds()
    ensures ValidIds([0, 1, 2], ["a", "a", "b"]) == ["a", "a", "b"]
  {
    var adIds := ["a", "a", "b"];
    assert [0, 1, 2][1..] == [1, 2] && [1, 2][1..] == [2] && [2][1..] == [];
    assert ValidIds([2], adIds) == ["b"];
    assert ValidIds([1, 2], adIds) == ["a", "b"];
  }

  /** When every hit is valid, the id list is the hits' ids in order */
  lemma {:induction false} ValidIdsAllValid(cands: seq<int>, adIds: seq<string>)
    requires forall i :: 0 <= i < |cands| ==> 0 <= cands[i] < |adIds|
    ensures |ValidIds(cands, adIds)| == |cands|
    ensures forall i :: 0 <= i < |cands| ==> ValidIds(cands, adIds)[i] == adIds[cands[i]]
  {
    if cands != [] {
      ValidIdsAllValid(cands[1..], adIds);
      var v := ValidIds(cands, adIds);
      assert v == [adIds[cands[0]]] + ValidIds(cands[1..], adIds);
      forall i | 1 <= i < |cands| ensures v[i] == adIds[cands[i]] {
        assert cands[i] == cands[1..][i - 1];
      }
    }
  }

  /** De-duplicating a list without repeats keeps it as it is */
  lemma {:induction false} DedupOfDistinct(s: seq<string>)
    requires NoDuplicates(s)
    ensures Dedup(s) == s
  {
    if s != [] {
      var prefix := s[..|s| - 1];
      assert NoDuplicates(prefix) by {
        forall a, b | 0 <= a < b < |prefix| ensures prefix[a] != prefix[b] {
          assert prefix[a] == s[a] && prefix[b] == s[b];
        }
      }
      DedupOfDistinct(prefix);
      assert s[|s| - 1] !in prefix;
      assert prefix + [s[|s| - 1]] == s;
    }
  }

  /** The two scorings agree when the scanned hits are all valid and point
      at different ads: the misalignment needs a repeated or invalid hit */
  lemma AlignedWhenHitsDistinct(hits: seq<int>, dists: seq<int>, adIds: seq<string>, n: nat)
    requires n <= |hits| == |dists|
    requires forall i :: 0 <= i < n ==> 0 <= hits[i] < |adIds|
    requires forall i, j :: 0 <= i < j < n ==> adIds[hits[i]] != adIds[hits[j]]
    ensures var retrieved := Dedup(ValidIds(hits[..n], adIds));
            && |retrieved| == n
            && AsWrittenScores(retrieved, dists) == HitScores(retrieved, hits[..n], dists[..n], adIds)
  {
    var prefix := hits[..n];
    assert forall i :: 0 <= i < n ==> prefix[i] == hits[i];
    AlignedOnDistinct(prefix, dists[..n], adIds);
    assert dists[..n][..n] == dists[..n];
  }

  /** The same for a whole hit list, all valid and pairwise on different ads */
  lemma AlignedOnDistinct(cands: seq<int>, dists: seq<int>, adIds: seq<string>)
    requires |cands| == |dists|
    requires forall i :: 0 <= i < |cands| ==> 0 <= cands[i] < |adIds|
    requires forall i, j :: 0 <= i < j < |cands| ==> adIds[cands[i]] != adIds[cands[j]]
    ensures Dedup(ValidIds(cands, adIds)) == ValidIds(cands, adIds)
    ensures |ValidIds(cands, adIds)| == |cands|
    ensures AsWrittenScores(ValidIds(cands, adIds), dists) == HitScores(ValidIds(cands, adIds), cands, dists, adIds)
  {
    ValidIdsAllValid(cands, adIds);
    var v := ValidIds(cands, adIds);
    assert NoDuplicates(v);
    DedupOfDistinct(v);
    var written := AsWrittenScores(v, dists);
    var corrected := HitScores(v, cands, dists, adIds);
    forall j | 0 <= j < |cands| ensures written[j] == corrected[j] {
      ScoredAtOwnHit(cands, dists, adIds, j);
    }
  }

  /** Under the same conditions the first-hit score of the `j`-th id is the
      `j`-th distance */
  lemma ScoredAtOwnHit(cands: seq<int>, dists: seq<int>, adIds: seq<string>, j: nat)
    requires |cands| == |dists| && j < |cands|
    requires forall i :: 0 <= i < |cands| ==> 0 <= cands[i] < |adIds|
    requires forall i, i' :: 0 <= i < i' < |cands| ==> adIds[cands[i]] != adIds[cands[i']]
    requires |ValidIds(cands, adIds)| == |cands|
    requires forall i :: 0 <= i < |cands| ==> ValidIds(cands, adIds)[i] == adIds[cands[i]]
    ensures HitScores(ValidIds(cands, adIds), cands, dists, adIds)[j] == dists[j]
  {
    var v := ValidIds(cands, adIds);
    var corrected := HitScores(v, cands, dists, adIds);
    var p :| IsFirstHit(cands, adIds, v[j], p) && corrected[j] == dists[p];
    FirstHitAtOwnPosition(cands, adIds, j);
    FirstHitUnique(cands, adIds, v[j], p, j);
  }

  /** Padding hits of `-1` after the real ones shift nothing: with ids
      `["a", "b"]`, hits `[0, 1, -1]` at distances `[1, 2, 3]`, both
      scorings give `[1, 2]`, although not every scanned hit is valid */
  lemma PaddingKeepsAlignment()
    ensures var hits, dists, adIds := [0, 1, -1], [1, 2, 3], ["a", "b"];
            var retrieved := Dedup(ValidIds(hits, adIds));
            && retrieved == ["a", "b"]
            && AsWrittenScores(retrieved, dists) == [1, 2]
            && HitScores(retrieved, hits, dists, adIds) == [1, 2]
  {
    var hits, adIds := [0, 1, -1], ["a", "b"];
    assert hits[1..] == [1, -1] && [1, -1][1..] == [-1] && [-1][1..] == [];
    assert ValidIds([-1], adIds) == [];
    assert ValidIds([1, -1], adIds) == ["b"];
    assert ValidIds(hits, adIds) == ["a", "b"];
    DedupSnocNew([], "a");
    assert [] + ["a"] == ["a"];
    DedupSnocNew(["a"], "b");
    assert ["a"] + ["b"] == ["a", "b"];
    assert IsFirstHit(hits, adIds, "a", 0) && IsFirstHit(hits, adIds, "b", 1);
  }

  /** With every hit valid and no ad hit twice, each hit is the first on
      its own ad */
  lemma FirstHitAtOwnPosition(cands: seq<int>, adIds: seq<string>, j: nat)
    requires forall i :: 0 <= i < |cands| ==> 0 <= cands[i] < |adIds|
    requires forall i, i' :: 0 <= i < i' < |cands| ==> adIds[cands[i]] != adIds[cands[i']]
    requires j < |cands|
    ensures IsFirstHit(cands, adIds, adIds[cands[j]], j)
  {
  }

  lemma ExampleDedup()
    ensures Dedup(["a", "a", "b"]) == ["a", "b"]
  {
    DedupSnocNew([], "a");
    assert [] + ["a"] == ["a"];
    DedupSnocOld(["a"], "a");
    assert ["a"] + ["a"] == ["a", "a"];
    DedupSnocNew(["a", "a"], "b");
    assert ["a", "a"] + ["b"] == ["a", "a", "b"];
  }

  /** The sort key: the score, negated for a descending sort */
  function Key(x: Scored, descending: bool): int {
    if descending then -x.score else x.score
  }

  predicate Ordered(xs: seq<Scored>, descending: bool) {
    forall i, j :: 0 <= i < j < |xs| ==> Key(xs[i], descending) <= Key(xs[j], descending)
  }

  lemma ConsOrdered(y: Scored, ys: seq<Scored>, descending: bool)
    requires Ordered(ys, descending)
    requires forall j :: 0 <= j < |ys| ==> Key(y, descending) <= Key(ys[j], descending)
    ensures Ordered([y] + ys, descending)
  {
    var r := [y] + ys;
    forall i, j | 0 <= i < j < |r| ensures Key(r[i], descending) <= Key(r[j], descending) {
      if i > 0 {
        assert r[i] == ys[i - 1] && r[j] == ys[j - 1];
      } else {
        assert r[j] == ys[j - 1];
      }
    }
  }

  /** The smallest key among `x` and the head of `xs` */
  function Low(x: Scored, xs: seq<Scored>, descending: bool): int {
    if xs == [] || Key(x, descending) <= Key(xs[0], descending) then Key(x, descending)
    else Key(xs[0], descending)
  }

  /** Insertion of `x` before the first element with a larger key */
  function Insert(x: Scored, xs: seq<Scored>, descending: bool): (r: seq<Scored>)
    ensures |r| == |xs| + 1
    ensures multiset(r) == multiset(xs) + multiset{x}
  {
    if xs == [] then [x]
    else if Key(x, descending) <= Key(xs[0], descending) then [x] + xs
    else
      var rest := Insert(x, xs[1..], descending);
      assert xs == [xs[0]] + xs[1..];
      assert multiset([xs[0]] + rest) == multiset{xs[0]} + multiset(rest);
      [xs[0]] + rest
  }

  lemma TailOrdered(xs: seq<Scored>, descending: bool)
    requires xs != [] && Ordered(xs, descending)
    ensures Ordered(xs[1..], descending)
    ensures forall j :: 0 <= j < |xs[1..]| ==> Key(xs[0], descending) <= Key(xs[1..][j], descending)
  {
    var tail := xs[1..];
    forall i, j | 0 <= i < j < |tail| ensures Key(tail[i], descending) <= Key(tail[j], descending) {
      assert tail[i] == xs[i + 1] && tail[j] == xs[j + 1];
    }
    forall j | 0 <= j < |tail| ensures Key(xs[0], descending) <= Key(tail[j], descending) {
      assert tail[j] == xs[j + 1];
    }
  }

  /** Inserting into an ordered sequence keeps it ordered, and every key
      of the result is at least the smaller of `x`'s and the old head's */
  lemma {:induction false} InsertOrdered(x: Scored, xs: seq<Scored>, descending: bool)
    requires Ordered(xs, descending)
    ensures forall j :: 0 <= j < |xs| + 1 ==> Low(x, xs, descending) <= Key(Insert(x, xs, descending)[j], descending)
    ensures Ordered(Insert(x, xs, descending), descending)
  {
    var r := Insert(x, xs, descending);
    if xs == [] {
      assert r == [x];
    } else if Key(x, descending) <= Key(xs[0], descending) {
      assert r == [x] + xs;
      ConsOrdered(x, xs, descending);
      forall j | 0 <= j < |r| ensures Low(x, xs, descending) <= Key(r[j], descending) {
        if j > 0 { assert r[j] == xs[j - 1]; }
      }
    } else {
      var tail := xs[1..];
      TailOrdered(xs, descending);
      InsertOrdered(x, tail, descending);
      var rest := Insert(x, tail, descending);
      assert r == [xs[0]] + rest;
      assert Low(x, tail, descending) >= Key(xs[0], descending);
      ConsOrdered(xs[0], rest, descending);
      forall j | 0 <= j < |r| ensures Low(x, xs, descending) <= Key(r[j], descending) {
        if j > 0 { assert r[j] == rest[j - 1]; }
      }
    }
  }

  /** The sort on `relevance_score`, descending when `reverse=True` */
  function SortBy(xs: seq<Scored>, descending: bool): (r: seq<Scored>)
    ensures multiset(r) == multiset(xs)
    ensures Ordered(r, descending)
  {
    if xs == [] then []
    else
      assert xs == [xs[0]] + xs[1..];
      var sorted := SortBy(xs[1..], descending);
      InsertOrdered(xs[0], sorted, descending);
      Insert(xs[0], sorted, descending)
  }

  /** The head of an ordered permutation of `xs` has the least key in `xs` */
  lemma HeadIsLeast(r: seq<Scored>, xs: seq<Scored>, descending: bool)
    requires multiset(r) == multiset(xs) && Ordered(r, descending)
    ensures r != [] ==> forall x :: x in xs ==> Key(r[0], descending) <= Key(x, descending)
  {
    forall x | x in xs && r != [] ensures Key(r[0], descending) <= Key(x, descending) {
      assert x in multiset(r);
      var j :| 0 <= j < |r| && r[j] == x;
    }
  }

  /** As written: `reverse=True` puts the largest L2 distance, the least
      similar ad, first */
  function RankAsWritten(xs: seq<Scored>): (r: seq<Scored>)
    ensures multiset(r) == multiset(xs)
    ensures Ordered(r, true)
    ensures r != [] ==> forall x :: x in xs ==> r[0].score >= x.score
  {
    var r := SortBy(xs, true);
    HeadIsLeast(r, xs, true);
    r
  }

  /** Corrected: nearest (smallest distance) first */
  function Rank(xs: seq<Scored>): (r: seq<Scored>)
    ensures multiset(r) == multiset(xs)
    ensures Ordered(r, false)
    ensures r != [] ==> forall x :: x in xs ==> r[0].score <= x.score
  {
    var r := SortBy(xs, false);
    HeadIsLeast(r, xs, false);
    r
  }

  /** With one ad at distance 1 and one at distance 5, the as-written
      ranking leads with the farther one, the corrected one with the nearer */
  lemma FarthestFirstExample(a: Doc, b: Doc)
    ensures RankAsWritten([Scored(a, 1), Scored(b, 5)])[0] == Scored(b, 5)
    ensures Rank([Scored(a, 1), Scored(b, 5)])[0] == Scored(a, 1)
  {
    var xs := [Scored(a, 1), Scored(b, 5)];
    assert Scored(b, 5) in xs && Scored(a, 1) in xs;
    var w := RankAsWritten(xs);
    assert |multiset(w)| == 2;
    assert w[0] in multiset(xs);
    var c := Rank(xs);
    assert |multiset(c)| == 2;
    assert c[0] in multiset(xs);
  }

  /** `x` carries the distance of the first hit that points at its ad */
  ghost predicate ScoredByFirstHit(x: Scored, hits: seq<int>, dists: seq<int>, adIds: seq<string>) {
    exists p :: IsFirstHit(hits, adIds, x.doc.adId, p) && p < |dists| && x.score == dists[p]
  }

  /** The first hit within a prefix is the first hit of the whole list */
  lemma FirstHitOfPrefix(hits: seq<int>, adIds: seq<string>, x: string, n: nat, p: int)
    requires n <= |hits| && IsFirstHit(hits[..n], adIds, x, p)
    ensures IsFirstHit(hits, adIds, x, p)
  {
    assert hits[..n][p] == hits[p];
    forall q | 0 <= q < p ensures !IsHit(hits, adIds, x, q) {
      assert hits[..n][q] == hits[q];
      assert !IsHit(hits[..n], adIds, x, q);
    }
  }

  /** There is only one first hit */
  lemma FirstHitUnique(hits: seq<int>, adIds: seq<string>, x: string, p: int, p': int)
    requires IsFirstHit(hits, adIds, x, p) && IsFirstHit(hits, adIds, x, p')
    ensures p == p'
  {
  }

  /** The corrected score of a selected id is exactly the distance of its
      first hit */
  lemma HitScoreIsFirstHit(x: Scored, retrieved: seq<string>, hits: seq<int>, dists: seq<int>, adIds: seq<string>, n: nat)
    requires n <= |hits| == |dists|
    requires forall j :: 0 <= j < |retrieved| ==> retrieved[j] in ValidIds(hits[..n], adIds)
    requires x.doc.adId in retrieved
    ensures var scores := HitScores(retrieved, hits[..n], dists[..n], adIds);
            x.score == scores[IndexOf(retrieved, x.doc.adId)] <==> ScoredByFirstHit(x, hits, dists, adIds)
  {
    var scores := HitScores(retrieved, hits[..n], dists[..n], adIds);
    var i := IndexOf(retrieved, x.doc.adId);
    var p :| IsFirstHit(hits[..n], adIds, retrieved[i], p) && scores[i] == dists[..n][p];
    FirstHitOfPrefix(hits, adIds, x.doc.adId, n, p);
    assert dists[..n][p] == dists[p];
    if ScoredByFirstHit(x, hits, dists, adIds) {
      var p' :| IsFirstHit(hits, adIds, x.doc.adId, p') && p' < |dists| && x.score == dists[p'];
      FirstHitUnique(hits, adIds, x.doc.adId, p, p');
    }
  }

  /** The ids `search_ads` selects: those of the first `n` hits, where `n`
      is the point at which the loop stops for `k` */
  ghost predicate SelectedIds(retrieved: seq<string>, hits: seq<int>, adIds: seq<string>, k: int) {
    exists n: nat :: StopsAt(hits, adIds, k, n) && retrieved == Dedup(ValidIds(hits[..n], adIds))
  }

  /** Only one id list is selected for given hits and `k` */
  lemma SelectionUnique(retrieved: seq<string>, retrieved': seq<string>, hits: seq<int>, adIds: seq<string>, k: int)
    requires SelectedIds(retrieved, hits, adIds, k) && SelectedIds(retrieved', hits, adIds, k)
    ensures retrieved == retrieved'
  {
    var n: nat :| StopsAt(hits, adIds, k, n) && retrieved == Dedup(ValidIds(hits[..n], adIds));
    var n': nat :| StopsAt(hits, adIds, k, n') && retrieved' == Dedup(ValidIds(hits[..n'], adIds));
  }

  /** `search_ads` as written: ids selected from the hits, each found
      document scored with the distance at its id's position in the
      de-duplicated list, then sorted with `reverse=True`, farthest first.
      `hits` and `dists` are the first rows of the index search, `adIds`
      the stored id list, and `find` the database query for a list of
      ids; `retrieved` is the selected id list. */
  method SearchAdsAsWritten(ntotal: nat, k: int, hits: seq<int>, dists: seq<int>, adIds: seq<string>,
                            find: seq<string> -> seq<Doc>)
    returns (r: seq<Scored>, retrieved: seq<string>)
    requires |hits| == |dists|
    ensures ntotal == 0 ==> r == [] && retrieved == []
    ensures ntotal > 0 ==> SelectedIds(retrieved, hits, adIds, k)
    ensures NoDuplicates(retrieved) && (k >= 1 ==> |retrieved| <= k)
    ensures |retrieved| <= |dists|
    ensures Ordered(r, true)
    ensures forall x :: multiset(r)[x] ==
              if x.doc.adId in retrieved && x.score == dists[IndexOf(retrieved, x.doc.adId)]
              then multiset(find(retrieved))[x.doc] else 0
  {
    if ntotal == 0 {
      return [], [];
    }
    var scanned;
    retrieved, scanned := SelectIds(hits, adIds, k);
    ValidIdsLength(hits[..scanned], adIds);
    var docs := find(retrieved);
    var scores := AsWrittenScores(retrieved, dists);
    var hydrated := Hydrate(retrieved, scores, docs);
    r := RankAsWritten(hydrated);
    forall x ensures multiset(r)[x] ==
        if x.doc.adId in retrieved && x.score == dists[IndexOf(retrieved, x.doc.adId)]
        then multiset(docs)[x.doc] else 0 {
      assert multiset(r)[x] == multiset(hydrated)[x];
    }
  }

  /** `search_ads` with the two corrections: each document scored with the
      distance of the first hit on its id, and ranked nearest first */
  method SearchAds(ntotal: nat, k: int, hits: seq<int>, dists: seq<int>, adIds: seq<string>,
                   find: seq<string> -> seq<Doc>)
    returns (r: seq<Scored>, retrieved: seq<string>)
    requires |hits| == |dists|
    ensures ntotal == 0 ==> r == [] && retrieved == []
    ensures ntotal > 0 ==> SelectedIds(retrieved, hits, adIds, k)
    ensures NoDuplicates(retrieved) && (k >= 1 ==> |retrieved| <= k)
    ensures Ordered(r, false)
    ensures forall x :: multiset(r)[x] ==
              if x.doc.adId in retrieved && ScoredByFirstHit(x, hits, dists, adIds)
              then multiset(find(retrieved))[x.doc] else 0
  {
    if ntotal == 0 {
      return [], [];
    }
    var scanned;
    retrieved, scanned := SelectIds(hits, adIds, k);
    ValidIdsLength(hits[..scanned], adIds);
    var docs := find(retrieved);
    var scores := HitScores(retrieved, hits[..scanned], dists[..scanned], adIds);
    var hydrated := Hydrate(retrieved, scores, docs);
    r := Rank(hydrated);
    forall x ensures multiset(r)[x] ==
        if x.doc.adId in retrieved && ScoredByFirstHit(x, hits, dists, adIds)
        then multiset(docs)[x.doc] else 0 {
      assert multiset(r)[x] == multiset(hydrated)[x];
      if x.doc.adId in retrieved {
        HitScoreIsFirstHit(x, retrieved, hits, dists, adIds, scanned);
      }
    }
  }
}
