/** pipeline/retrieval.py: nearest neighbours out of a table, through a matrix
    kept in memory. Vectors are sequences of reals; the length of a vector
    (`norm`) is a parameter, and among equal scores any may come first. */
module Retrieval {
  import opened Text
  import opened Collections

  datatype Entity = Incident | Kb

  type Vector = seq<real>

  type Meta = map<string, string>

  datatype Key = Key(entity: Entity, entity_key: string)

  /** A row of embedding_store, its metadata decoded. */
  datatype Row = Row(dims: nat, vector: Vector, meta: Meta)

  type Store = map<Key, Row>

  datatype Cache = Cache(matrix: Option<seq<Vector>>, keys: seq<string>, metas: seq<Meta>)

  datatype Item = Item(entity_key: string, vector: Vector, meta: Meta)

  datatype Hit = Hit(entity_key: string, score: real, meta: Meta)

  // -- scores ---------------------------------------------------------------

  function Scaled(v: Vector, by_: real): Vector
    requires by_ != 0.0
  {
    if v == [] then [] else [v[0] / by_] + Scaled(v[1..], by_)
  }

  /** Divided by its length; a vector of no length is left as it is. */
  function Unit(v: Vector, norm: Vector -> real): Vector {
    Scaled(v, if norm(v) == 0.0 then 1.0 else norm(v))
  }

  function Dot(a: Vector, b: Vector): real {
    if a == [] || b == [] then 0.0 else a[0] * b[0] + Dot(a[1..], b[1..])
  }

  function Score(v: Vector, query: Vector, norm: Vector -> real): real {
    Dot(Unit(v, norm), Unit(query, norm))
  }

  predicate Matches(meta: Meta, where: map<string, string>) {
    forall k :: k in where ==> Lower(if k in meta then meta[k] else "") == Lower(where[k])
  }

  /** Each field asked for is there and the same but for case; one that is not
      there is taken for blank. */
  lemma {:induction false} MatchesIff(meta: Meta, where: map<string, string>)
    ensures Matches(meta, where)
            <==> forall k :: k in where ==> if k in meta then Lower(meta[k]) == Lower(where[k]) else where[k] == ""
  {
    assert Lower("") == "";
    assert forall s: string :: Lower(s) == "" <==> s == "";
  }

  // -- the product of two vectors, by the four laws that make it one

  function Sum(a: Vector, b: Vector): Vector
    requires |a| == |b|
  {
    if a == [] then [] else [a[0] + b[0]] + Sum(a[1..], b[1..])
  }

  function Product(x: real, y: real): real { x * y }

  function Times(x: real, a: Vector): Vector { if a == [] then [] else [Product(x, a[0])] + Times(x, a[1..]) }

  /** One in one place, nought elsewhere. */
  function Axis(n: nat, i: nat): Vector
    requires i < n
  {
    if i == 0 then [1.0] + Zeros(n - 1) else [0.0] + Axis(n - 1, i - 1)
  }

  function Zeros(n: nat): Vector { if n == 0 then [] else [0.0] + Zeros(n - 1) }

  lemma {:induction false} DotCommutes(a: Vector, b: Vector)
    requires |a| == |b|
    ensures Dot(a, b) == Dot(b, a)
  {
    if a != [] {
      DotCommutes(a[1..], b[1..]);
    }
  }

  lemma {:induction false} DotAdds(a: Vector, b: Vector, c: Vector)
    requires |a| == |b| == |c|
    ensures |Sum(a, b)| == |a| && Dot(Sum(a, b), c) == Dot(a, c) + Dot(b, c)
  {
    if a != [] {
      DotAdds(a[1..], b[1..], c[1..]);
      assert Sum(a, b)[1..] == Sum(a[1..], b[1..]);
      assert (a[0] + b[0]) * c[0] == a[0] * c[0] + b[0] * c[0];
    }
  }

  lemma {:induction false} DotScales(x: real, a: Vector, b: Vector)
    requires |a| == |b|
    ensures |Times(x, a)| == |a| && Dot(Times(x, a), b) == x * Dot(a, b)
  {
    if a != [] {
      DotScales(x, a[1..], b[1..]);
      assert Times(x, a)[1..] == Times(x, a[1..]);
      Distributes(x, a[0] * b[0], Dot(a[1..], b[1..]));
      assert (x * a[0]) * b[0] == x * (a[0] * b[0]);
    }
  }

  lemma {:induction false} Distributes(x: real, y: real, z: real)
    ensures x * (y + z) == x * y + x * z
  {
  }

  lemma {:induction false} DotWithZeros(b: Vector)
    ensures |Zeros(|b|)| == |b| && Dot(Zeros(|b|), b) == 0.0
  {
    if b != [] {
      DotWithZeros(b[1..]);
      assert Zeros(|b|)[1..] == Zeros(|b[1..]|);
    }
  }

  lemma {:induction false} DotPicks(b: Vector, i: nat)
    requires i < |b|
    ensures |Axis(|b|, i)| == |b| && Dot(Axis(|b|, i), b) == b[i]
  {
    if i == 0 {
      DotWithZeros(b[1..]);
      assert Axis(|b|, 0)[1..] == Zeros(|b[1..]|);
    } else {
      DotPicks(b[1..], i - 1);
      assert Axis(|b|, i)[1..] == Axis(|b[1..]|, i - 1);
    }
  }

  /** Dividing by the length is undone by multiplying with it. */
  lemma {:induction false} UnitTimesLength(v: Vector, norm: Vector -> real)
    ensures norm(v) != 0.0 ==> Times(norm(v), Unit(v, norm)) == v
    ensures norm(v) == 0.0 ==> Unit(v, norm) == v
    ensures |Unit(v, norm)| == |v|
  {
    var by_ := if norm(v) == 0.0 then 1.0 else norm(v);
    ScaledTimes(v, by_);
    if norm(v) == 0.0 {
      TimesOne(v);
      TimesOne(Unit(v, norm));
    }
  }

  lemma {:induction false} ScaledTimes(v: Vector, x: real)
    requires x != 0.0
    ensures |Scaled(v, x)| == |v| && Times(x, Scaled(v, x)) == v
  {
    if v != [] {
      var s := Scaled(v, x);
      ScaledTimes(v[1..], x);
      assert s[0] == v[0] / x && s[1..] == Scaled(v[1..], x);
      TimesQuotient(x, v[0]);
      assert Times(x, s) == [Product(x, s[0])] + Times(x, s[1..]);
    }
  }

  lemma {:induction false} TimesQuotient(x: real, y: real)
    requires x != 0.0
    ensures Product(x, y / x) == y
  {
  }

  lemma {:induction false} TimesOne(v: Vector)
    ensures Times(1.0, v) == v
  {
    if v != [] {
      TimesOne(v[1..]);
    }
  }

  /** The score is the cosine: times both lengths it is the product. */
  lemma {:induction false} ScoreIsCosine(v: Vector, query: Vector, norm: Vector -> real)
    requires |v| == |query| && norm(v) != 0.0 && norm(query) != 0.0
    ensures norm(v) * (norm(query) * Score(v, query, norm)) == Dot(v, query)
  {
    var a, b := Unit(v, norm), Unit(query, norm);
    UnitTimesLength(v, norm);
    UnitTimesLength(query, norm);
    DotCommutes(a, b);
    DotScales(norm(query), b, a);
    DotCommutes(Times(norm(query), b), a);
    DotScales(norm(v), a, query);
  }

  // -- what a search has to return, said of the table alone -----------------------------

  /** A search, with the size of vector the index works with. */
  datatype Query = Query(entity: Entity, vector: Vector, top_k: nat, where: map<string, string>,
                         min_score: real, dims: nat)

  predicate Eligible(store: Store, q: Query, key: string) {
    var k := Key(q.entity, key);
    k in store && store[k].dims == q.dims && Matches(store[k].meta, q.where)
  }

  function ScoreIn(store: Store, q: Query, norm: Vector -> real, key: string): real
    requires Eligible(store, q, key)
  {
    Score(store[Key(q.entity, key)].vector, q.vector, norm)
  }

  ghost predicate IsHit(store: Store, q: Query, norm: Vector -> real, h: Hit) {
    && Eligible(store, q, h.entity_key)
    && h.score == ScoreIn(store, q, norm, h.entity_key) && h.score >= q.min_score
    && h.meta == store[Key(q.entity, h.entity_key)].meta
  }

  ghost predicate DistinctHits(hits: seq<Hit>) {
    forall i, j :: 0 <= i < j < |hits| ==> hits[i].entity_key != hits[j].entity_key
  }

  ghost predicate Descending(hits: seq<Hit>) {
    forall i, j :: 0 <= i < j < |hits| ==> hits[i].score >= hits[j].score
  }

  predicate HasKey(hits: seq<Hit>, key: string) {
    exists i :: 0 <= i < |hits| && hits[i].entity_key == key
  }

  /** Nothing good enough is left out unless the list is full of no worse. */
  ghost predicate NothingBetterOmitted(store: Store, q: Query, norm: Vector -> real, hits: seq<Hit>) {
    forall key :: Eligible(store, q, key) && ScoreIn(store, q, norm, key) >= q.min_score && !HasKey(hits, key) ==>
      |hits| == q.top_k && forall h :: h in hits ==> h.score >= ScoreIn(store, q, norm, key)
  }

  ghost predicate IsTopK(store: Store, q: Query, norm: Vector -> real, hits: seq<Hit>) {
    && |hits| <= q.top_k && DistinctHits(hits) && Descending(hits)
    && (forall h :: h in hits ==> IsHit(store, q, norm, h))
    && NothingBetterOmitted(store, q, norm, hits)
  }

  // -- the answer is determined, but for ties ----------------------------------------------

  lemma {:induction false} Pigeons(keys: seq<string>, holes: seq<string>)
    requires Distinct(keys) && forall k :: k in keys ==> k in holes
    ensures |keys| <= |holes|
  {
    DistinctSize(keys);
    assert Elems(keys) <= Elems(holes);
    SubsetSize(Elems(keys), Elems(holes));
    ElemsAtMost(holes);
  }

  function KeysOf(hits: seq<Hit>): seq<string> {
    if hits == [] then [] else KeysOf(hits[..|hits| - 1]) + [hits[|hits| - 1].entity_key]
  }

  lemma {:induction false} KeysOfFacts(hits: seq<Hit>)
    ensures |KeysOf(hits)| == |hits| && forall i :: 0 <= i < |hits| ==> KeysOf(hits)[i] == hits[i].entity_key
  {
    if hits != [] {
      KeysOfFacts(hits[..|hits| - 1]);
    }
  }

  /** Anything that beats the i-th hit of a top-k list is among the first i. */
  lemma {:induction false} BetterComesEarlier(store: Store, q: Query, norm: Vector -> real, hits: seq<Hit>, i: nat,
                                              h: Hit)
    requires IsTopK(store, q, norm, hits) && IsHit(store, q, norm, h)
    requires i < |hits| ==> h.score > hits[i].score
    requires i == |hits| ==> |hits| < q.top_k
    requires i <= |hits|
    ensures HasKey(hits[..i], h.entity_key)
  {
    if i < |hits| {
      assert hits[i] in hits;
    }
    assert HasKey(hits, h.entity_key);
    var j :| 0 <= j < |hits| && hits[j].entity_key == h.entity_key;
    assert hits[j] in hits && hits[j].score == h.score;
    assert hits[..i][j] == hits[j];
  }

  lemma {:induction false} NoBetterAt(store: Store, q: Query, norm: Vector -> real, a: seq<Hit>, b: seq<Hit>, i: nat)
    requires IsTopK(store, q, norm, a) && IsTopK(store, q, norm, b) && i < |a|
    ensures i < |b| && a[i].score <= b[i].score
  {
    if i > |b| {
      NoBetterAt(store, q, norm, a, b, |b|);
    } else if i == |b| || a[i].score > b[i].score {
      var first, holes := KeysOf(a[..i + 1]), KeysOf(b[..i]);
      KeysOfFacts(a[..i + 1]);
      KeysOfFacts(b[..i]);
      forall k | k in first ensures k in holes {
        var j :| 0 <= j < |first| && first[j] == k;
        assert a[..i + 1][j] == a[j] && a[j] in a;
        BetterComesEarlier(store, q, norm, b, i, a[j]);
        var n :| 0 <= n < |b[..i]| && b[..i][n].entity_key == k;
        assert holes[n] == k;
      }
      forall x, y | 0 <= x < y < |first| ensures first[x] != first[y] {
        assert a[..i + 1][x] == a[x] && a[..i + 1][y] == a[y];
      }
      Pigeons(first, holes);
    }
  }

  /** Two answers to the same search have the same length and the same scores. */
  lemma {:induction false} ScoresAreDetermined(store: Store, q: Query, norm: Vector -> real, a: seq<Hit>, b: seq<Hit>)
    requires IsTopK(store, q, norm, a) && IsTopK(store, q, norm, b)
    ensures |a| == |b| && forall i :: 0 <= i < |a| ==> a[i].score == b[i].score
  {
    if |a| > 0 { NoBetterAt(store, q, norm, a, b, |a| - 1); }
    if |b| > 0 { NoBetterAt(store, q, norm, b, a, |b| - 1); }
    forall i | 0 <= i < |a| ensures a[i].score == b[i].score {
      NoBetterAt(store, q, norm, a, b, i);
      NoBetterAt(store, q, norm, b, a, i);
    }
  }

  // ---------------------------------------------------------------------
  // the index
  // ---------------------------------------------------------------------

  /** Position `i` of the cache holds a row of the table, normalised. */
  ghost predicate SlotHolds(store: Store, e: Entity, dims: nat, norm: Vector -> real, c: Cache, i: nat)
    requires c.matrix.Some? && i < |c.keys| == |c.metas| == |c.matrix.value|
  {
    var k := Key(e, c.keys[i]);
    && k in store && store[k].dims == dims
    && c.matrix.value[i] == Unit(store[k].vector, norm) && c.metas[i] == store[k].meta
  }

  /** The cache, if there is a matrix, is exactly the table's rows of the right
      size. */
  ghost predicate Mirrors(store: Store, e: Entity, dims: nat, norm: Vector -> real, c: Cache) {
    c.matrix.Some? ==>
      && |c.keys| == |c.metas| == |c.matrix.value| && c.keys != [] && Distinct(c.keys)
      && (forall i :: 0 <= i < |c.keys| ==> SlotHolds(store, e, dims, norm, c, i))
      && (forall k :: k in store && k.entity == e && store[k].dims == dims ==> k.entity_key in c.keys)
  }

  ghost predicate Positions(ps: seq<nat>, n: nat) {
    forall i :: 0 <= i < |ps| ==> ps[i] < n
  }

  /** Positions of the best scores, best first; ties fall as they may. */
  method SelectBest(scores: seq<real>, take: nat) returns (best: seq<nat>)
    requires take <= |scores|
    ensures |best| == take && Distinct(best) && Positions(best, |scores|)
    ensures forall i, j :: 0 <= i < j < |best| ==> scores[best[i]] >= scores[best[j]]
    ensures forall p, b :: 0 <= p < |scores| && p !in best && b in best ==> scores[p] <= scores[b]
  {
    best := [];
    while |best| < take
      invariant |best| <= take && Distinct(best) && Positions(best, |scores|)
      invariant forall i, j :: 0 <= i < j < |best| ==> scores[best[i]] >= scores[best[j]]
      invariant forall p, b :: 0 <= p < |scores| && p !in best && b in best ==> scores[p] <= scores[b]
    {
      var next := PickBest(scores, best);
      forall b | b in best ensures scores[next] <= scores[b] {
      }
      best := best + [next];
    }
  }

  method PickBest(scores: seq<real>, taken: seq<nat>) returns (next: nat)
    requires |taken| < |scores| && Distinct(taken) && Positions(taken, |scores|)
    ensures next < |scores| && next !in taken
    ensures forall p :: 0 <= p < |scores| && p !in taken ==> scores[p] <= scores[next]
  {
    SomethingLeft(taken, |scores|);
    var found := false;
    next := 0;
    for p := 0 to |scores|
      invariant found ==> next < p && next !in taken
      invariant !found ==> forall x :: 0 <= x < p ==> x in taken
      invariant found ==> forall x :: 0 <= x < p && x !in taken ==> scores[x] <= scores[next]
    {
      if p !in taken && (!found || scores[p] > scores[next]) {
        found, next := true, p;
      }
    }
  }

  lemma {:induction false} SomethingLeft(taken: seq<nat>, n: nat)
    requires |taken| < n && Positions(taken, n)
    ensures exists p: nat :: p < n && p !in taken
  {
    UpToFacts(n);
    if forall p: nat :: p < n ==> p in taken {
      assert UpTo(n) <= Elems(taken);
      SubsetSize(UpTo(n), Elems(taken));
      ElemsAtMost(taken);
    }
  }

  function Upserted(store: Store, e: Entity, dims: nat, items: seq<Item>): Store {
    if items == [] then store
    else
      var item := items[|items| - 1];
      Upserted(store, e, dims, items[..|items| - 1])[Key(e, item.entity_key) := Row(dims, item.vector, item.meta)]
  }

  lemma {:induction false} UpsertsElsewhere(store: Store, e: Entity, dims: nat, items: seq<Item>)
    ensures forall k: Key :: k.entity != e ==>
      (k in Upserted(store, e, dims, items) <==> k in store)
    ensures forall k: Key :: k.entity != e && k in store ==> Upserted(store, e, dims, items)[k] == store[k]
  {
    if items != [] {
      UpsertsElsewhere(store, e, dims, items[..|items| - 1]);
    }
  }

  lemma {:induction false} StillMirrors(store: Store, store': Store, e: Entity, dims: nat, norm: Vector -> real,
                                        c: Cache)
    requires Mirrors(store, e, dims, norm, c)
    requires forall k: Key :: k.entity == e ==> (k in store' <==> k in store)
    requires forall k: Key :: k.entity == e && k in store ==> store'[k] == store[k]
    ensures Mirrors(store', e, dims, norm, c)
  {
    if c.matrix.Some? {
      forall i | 0 <= i < |c.keys| ensures SlotHolds(store', e, dims, norm, c, i) {
        assert SlotHolds(store, e, dims, norm, c, i);
      }
    }
  }

  // -- one search, on the cache ---------------------------------------------------------

  /** The positions that pass the filter. */
  ghost predicate AreCandidates(c: Cache, q: Query, candidates: seq<nat>) {
    && Distinct(candidates) && Positions(candidates, |c.metas|)
    && (forall i :: i in candidates ==> i < |c.metas| && Matches(c.metas[i], q.where))
    && (forall i: nat :: i < |c.metas| && Matches(c.metas[i], q.where) ==> i in candidates)
  }

  method Candidates(c: Cache, q: Query) returns (candidates: seq<nat>)
    ensures AreCandidates(c, q, candidates)
  {
    candidates := [];
    for i := 0 to |c.metas|
      invariant Distinct(candidates) && Positions(candidates, i)
      invariant forall n: nat :: n in candidates <==> n < i && Matches(c.metas[n], q.where)
    {
      if Matches(c.metas[i], q.where) {
        candidates := candidates + [i];
      }
    }
  }

  lemma {:induction false} NoCandidates(store: Store, q: Query, norm: Vector -> real, c: Cache, candidates: seq<nat>)
    requires c.matrix.Some? && Mirrors(store, q.entity, q.dims, norm, c) && AreCandidates(c, q, candidates)
    requires candidates == []
    ensures IsTopK(store, q, norm, [])
  {
    forall key | Eligible(store, q, key) ensures false {
      var i := SlotOf(store, q, norm, c, candidates, key);
    }
  }

  lemma {:induction false} SlotOf(store: Store, q: Query, norm: Vector -> real, c: Cache, candidates: seq<nat>,
                                  key: string)
      returns (i: nat)
    requires c.matrix.Some? && Mirrors(store, q.entity, q.dims, norm, c) && AreCandidates(c, q, candidates)
    requires Eligible(store, q, key)
    ensures i < |candidates| && candidates[i] < |c.keys| && c.keys[candidates[i]] == key
  {
    var n :| 0 <= n < |c.keys| && c.keys[n] == key;
    assert SlotHolds(store, q.entity, q.dims, norm, c, n);
    i :| i < |candidates| && candidates[i] == n;
  }

  function HitAt(c: Cache, candidates: seq<nat>, scores: seq<real>, b: nat): Hit
    requires b < |scores| == |candidates| && candidates[b] < |c.keys| == |c.metas|
  {
    Hit(c.keys[candidates[b]], scores[b], c.metas[candidates[b]])
  }

  /** Positions into the candidates, candidates into the cache. */
  ghost predicate Fits(c: Cache, candidates: seq<nat>, scores: seq<real>, best: seq<nat>) {
    && |c.keys| == |c.metas| && |scores| == |candidates| && Distinct(c.keys) && Distinct(candidates) && Distinct(best)
    && (forall i :: i in candidates ==> i < |c.keys|)
    && Positions(best, |scores|)
  }

  ghost predicate ComesFrom(c: Cache, candidates: seq<nat>, scores: seq<real>, best: seq<nat>, h: Hit)
    requires Fits(c, candidates, scores, best)
  {
    exists b :: b in best && candidates[b] < |c.keys| && h == HitAt(c, candidates, scores, b)
  }

  ghost predicate Traced(c: Cache, candidates: seq<nat>, scores: seq<real>, best: seq<nat>, h: Hit, i: nat)
    requires Fits(c, candidates, scores, best)
  {
    i < |best| && best[i] < |candidates| && candidates[best[i]] < |c.keys| && h == HitAt(c, candidates, scores, best[i])
  }

  /** The best positions whose score is good enough, in the same order. */
  ghost predicate Collected(c: Cache, candidates: seq<nat>, scores: seq<real>, best: seq<nat>, min_score: real,
                            hits: seq<Hit>)
    requires Fits(c, candidates, scores, best)
  {
    && |hits| <= |best| && DistinctHits(hits) && Descending(hits)
    && (forall h :: h in hits ==> h.score >= min_score && ComesFrom(c, candidates, scores, best, h))
    && (forall b :: b in best && scores[b] >= min_score ==>
         candidates[b] < |c.keys| && HitAt(c, candidates, scores, b) in hits)
    && ((forall b :: b in best ==> scores[b] >= min_score) ==> |hits| == |best|)
  }

  method Collect(c: Cache, candidates: seq<nat>, scores: seq<real>, best: seq<nat>,
                 min_score: real) returns (hits: seq<Hit>)
    requires Fits(c, candidates, scores, best)
    requires forall i, j :: 0 <= i < j < |best| ==> scores[best[i]] >= scores[best[j]]
    ensures Collected(c, candidates, scores, best, min_score, hits)
  {
    hits := [];
    ghost var from: seq<nat> := [];      // where in `best` each hit comes from
    for i := 0 to |best|
      invariant |from| == |hits| <= i
      invariant forall n :: 0 <= n < |from| ==>
        from[n] < i && Traced(c, candidates, scores, best, hits[n], from[n]) && hits[n].score >= min_score
      invariant forall m, n :: 0 <= m < n < |from| ==> from[m] < from[n]
      invariant forall m :: 0 <= m < i && scores[best[m]] >= min_score ==> m in from
      invariant (forall m :: 0 <= m < i ==> scores[best[m]] >= min_score) ==> |hits| == i
    {
      var position := best[i];
      assert position in best && candidates[position] in candidates;
      if scores[position] < min_score {
        continue;
      }
      hits := hits + [Hit(c.keys[candidates[position]], scores[position], c.metas[candidates[position]])];
      from := from + [i];
    }
    CollectedFrom(c, candidates, scores, best, min_score, hits, from);
  }

  lemma {:induction false} CollectedFrom(c: Cache, candidates: seq<nat>, scores: seq<real>, best: seq<nat>,
                                         min_score: real, hits: seq<Hit>, from: seq<nat>)
    requires Fits(c, candidates, scores, best)
    requires forall i, j :: 0 <= i < j < |best| ==> scores[best[i]] >= scores[best[j]]
    requires |from| == |hits| <= |best|
    requires forall n :: 0 <= n < |from| ==>
      Traced(c, candidates, scores, best, hits[n], from[n]) && hits[n].score >= min_score
    requires forall m, n :: 0 <= m < n < |from| ==> from[m] < from[n]
    requires forall m :: 0 <= m < |best| && scores[best[m]] >= min_score ==> m in from
    requires (forall m :: 0 <= m < |best| ==> scores[best[m]] >= min_score) ==> |hits| == |best|
    ensures Collected(c, candidates, scores, best, min_score, hits)
  {
  }

  /** The positions and the scores a search works on. */
  ghost predicate Scored(c: Cache, q: Query, norm: Vector -> real, candidates: seq<nat>, scores: seq<real>)
    requires c.matrix.Some?
  {
    |scores| == |candidates| && forall n :: 0 <= n < |scores| ==>
      candidates[n] < |c.matrix.value| && scores[n] == Dot(c.matrix.value[candidates[n]], Unit(q.vector, norm))
  }

  ghost predicate Best(scores: seq<real>, take: nat, best: seq<nat>) {
    && |best| == take <= |scores| && Distinct(best) && Positions(best, |scores|)
    && forall p, b :: 0 <= p < |scores| && p !in best && b in best ==> scores[p] <= scores[b]
  }

  lemma {:induction false} AllTaken(scores: seq<real>, best: seq<nat>, p: nat)
    requires Best(scores, |scores|, best) && p < |scores|
    ensures p in best
  {
    if p !in best {
      UpToFacts(|scores|);
      DistinctSize(best);
      assert Elems(best) <= UpTo(|scores|) - {p};
      SubsetSize(Elems(best), UpTo(|scores|) - {p});
    }
  }

  /** What is collected from the best positions is a top-k list of the table. */
  lemma {:induction false} CollectedIsTopK(store: Store, q: Query, norm: Vector -> real, c: Cache, candidates: seq<nat>,
                                           scores: seq<real>, best: seq<nat>, hits: seq<Hit>)
    requires c.matrix.Some? && Mirrors(store, q.entity, q.dims, norm, c) && AreCandidates(c, q, candidates)
    requires Scored(c, q, norm, candidates, scores)
    requires Best(scores, if q.top_k < |scores| then q.top_k else |scores|, best)
    requires Fits(c, candidates, scores, best) && Collected(c, candidates, scores, best, q.min_score, hits)
    ensures IsTopK(store, q, norm, hits)
  {
    forall h | h in hits ensures IsHit(store, q, norm, h) {
      var b :| b in best && candidates[b] < |c.keys| && h == HitAt(c, candidates, scores, b);
      assert candidates[b] in candidates;
      assert SlotHolds(store, q.entity, q.dims, norm, c, candidates[b]);
    }
    forall key | Eligible(store, q, key) && ScoreIn(store, q, norm, key) >= q.min_score && !HasKey(hits, key)
      ensures |hits| == q.top_k && forall h :: h in hits ==> h.score >= ScoreIn(store, q, norm, key)
    {
      OmittedIsNoBetter(store, q, norm, c, candidates, scores, best, hits, key);
    }
  }

  lemma {:induction false} OmittedIsNoBetter(store: Store, q: Query, norm: Vector -> real, c: Cache,
                                             candidates: seq<nat>, scores: seq<real>, best: seq<nat>,
                                             hits: seq<Hit>, key: string)
    requires c.matrix.Some? && Mirrors(store, q.entity, q.dims, norm, c) && AreCandidates(c, q, candidates)
    requires Scored(c, q, norm, candidates, scores)
    requires Best(scores, if q.top_k < |scores| then q.top_k else |scores|, best)
    requires Fits(c, candidates, scores, best) && Collected(c, candidates, scores, best, q.min_score, hits)
    requires Eligible(store, q, key) && ScoreIn(store, q, norm, key) >= q.min_score && !HasKey(hits, key)
    ensures |hits| == q.top_k && forall h :: h in hits ==> h.score >= ScoreIn(store, q, norm, key)
  {
    var p := SlotOf(store, q, norm, c, candidates, key);
    assert SlotHolds(store, q.entity, q.dims, norm, c, candidates[p]);
    assert scores[p] == ScoreIn(store, q, norm, key);
    forall h | h in hits ensures HasKey(hits, h.entity_key) {
      var n :| 0 <= n < |hits| && hits[n] == h;
      assert hits[n].entity_key == h.entity_key;
    }
    assert p !in best;
    assert q.top_k < |scores| by {
      if q.top_k >= |scores| {
        AllTaken(scores, best, p);
      }
    }
    assert forall b :: b in best ==> scores[b] >= scores[p] >= q.min_score;
  }

  class VectorIndex {
    const dims: nat
    const norm: Vector -> real
    var store: Store
    var caches: map<Entity, Cache>

    ghost predicate Valid()
      reads this
    {
      forall e :: e in caches && Mirrors(store, e, dims, norm, caches[e])
    }

    constructor (dims: nat, norm: Vector -> real, store: Store)
      ensures Valid() && this.dims == dims && this.norm == norm && this.store == store
    {
      this.dims, this.norm, this.store := dims, norm, store;
      caches := map[Incident := Cache(None, [], []), Kb := Cache(None, [], [])];
      new;
      forall e ensures e in caches && Mirrors(store, e, dims, norm, caches[e]) {
        assert e == Incident || e == Kb;
      }
    }

    /** `rows` is the order in which the table lists the keys of one kind. */
    method Load(e: Entity, force: bool, rows: seq<string>) returns (count: nat)
      requires Valid() && Distinct(rows) && forall k :: k in rows <==> Key(e, k) in store
      modifies this`caches
      ensures Valid()
      ensures caches[e].matrix.Some? <==> exists k :: k in store && k.entity == e && store[k].dims == dims
      ensures count == if caches[e].matrix.Some? then |caches[e].keys| else 0
    {
      if !force && caches[e].matrix.Some? {
        assert SlotHolds(store, e, dims, norm, caches[e], 0);
        return |caches[e].keys|;
      }
      if rows == [] {
        caches := caches[e := Cache(None, [], [])];
        return 0;
      }
      var c := ReadRows(e, rows);
      if c.matrix.value == [] {
        // keys and metas are left as they were, with no matrix to go by
        caches := caches[e := caches[e].(matrix := None)];
        return 0;
      }
      caches := caches[e := c];
      assert SlotHolds(store, e, dims, norm, c, 0);
      return |c.keys|;
    }

    method ReadRows(e: Entity, rows: seq<string>) returns (c: Cache)
      requires Distinct(rows) && forall k :: k in rows <==> Key(e, k) in store
      ensures c.matrix.Some? && |c.keys| == |c.metas| == |c.matrix.value| && Distinct(c.keys)
      ensures forall i :: 0 <= i < |c.keys| ==> SlotHolds(store, e, dims, norm, c, i)
      ensures forall k :: k in store && k.entity == e && store[k].dims == dims ==> k.entity_key in c.keys
    {
      c := Cache(Some([]), [], []);
      for i := 0 to |rows|
        invariant c.matrix.Some? && |c.keys| == |c.metas| == |c.matrix.value| && Distinct(c.keys)
        invariant forall n :: 0 <= n < |c.keys| ==> SlotHolds(store, e, dims, norm, c, n)
        invariant forall k :: k in c.keys <==> k in rows[..i] && store[Key(e, k)].dims == dims
      {
        assert rows[..i + 1] == rows[..i] + [rows[i]];
        var row := store[Key(e, rows[i])];
        if row.dims != dims {
          continue;
        }
        ghost var before := c;
        c := Cache(Some(c.matrix.value + [Unit(row.vector, norm)]), c.keys + [rows[i]], c.metas + [row.meta]);
        forall n | 0 <= n < |c.keys| ensures SlotHolds(store, e, dims, norm, c, n) {
          if n < |before.keys| {
            assert SlotHolds(store, e, dims, norm, before, n);
          }
        }
      }
      assert rows[..|rows|] == rows;
    }

    method Invalidate(target: Option<Entity>)
      requires Valid()
      modifies this`caches
      ensures Valid()
      ensures forall e :: target == None || target == Some(e) ==> caches[e].matrix == None
      ensures forall e :: target.Some? && target != Some(e) ==> caches[e] == old(caches)[e]
    {
      if target.Some? {
        caches := caches[target.value := caches[target.value].(matrix := None)];
      } else {
        caches := map[Incident := caches[Incident].(matrix := None), Kb := caches[Kb].(matrix := None)];
        forall e ensures e in caches && caches[e].matrix == None {
          assert e == Incident || e == Kb;
        }
      }
    }

    /** Vectors arrive in the size the index works with. */
    method UpsertMany(e: Entity, items: seq<Item>) returns (written: nat)
      requires Valid()
      modifies this
      ensures Valid() && written == |items| && store == Upserted(old(store), e, dims, items)
    {
      written := 0;
      ghost var before := store;
      for i := 0 to |items|
        invariant written == i && store == Upserted(before, e, dims, items[..i])
        invariant caches == old(caches)
      {
        assert items[..i + 1][..i] == items[..i];
        store := store[Key(e, items[i].entity_key) := Row(dims, items[i].vector, items[i].meta)];
        written := written + 1;
      }
      assert items[..|items|] == items;
      UpsertsElsewhere(before, e, dims, items);
      if written > 0 {
        caches := caches[e := caches[e].(matrix := None)];
        forall o | o != e ensures o in caches && Mirrors(store, o, dims, norm, caches[o]) {
          StillMirrors(before, store, o, dims, norm, caches[o]);
        }
      }
    }

    method Search(q: Query, rows: seq<string>) returns (hits: seq<Hit>)
      requires Valid() && q.dims == dims && Distinct(rows) && forall k :: k in rows <==> Key(q.entity, k) in store
      modifies this`caches
      ensures Valid() && IsTopK(store, q, norm, hits)
    {
      var count := Load(q.entity, false, rows);
      var c := caches[q.entity];
      if c.matrix.None? {
        return [];
      }
      var candidates := Candidates(c, q);
      if candidates == [] {
        NoCandidates(store, q, norm, c, candidates);
        return [];
      }
      var scores: seq<real> := [];
      var unit := Unit(q.vector, norm);
      for i := 0 to |candidates|
        invariant |scores| == i && forall n :: 0 <= n < i ==> scores[n] == Dot(c.matrix.value[candidates[n]], unit)
      {
        scores := scores + [Dot(c.matrix.value[candidates[i]], unit)];
      }
      var take := if q.top_k < |scores| then q.top_k else |scores|;
      var best := SelectBest(scores, take);
      hits := Collect(c, candidates, scores, best, q.min_score);
      CollectedIsTopK(store, q, norm, c, candidates, scores, best, hits);
    }
  }
}
