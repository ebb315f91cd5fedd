/**
 * The weighted retrieval library: entries keyed by module name and code digest, a similarity
 * search re-ranked by `cosine * weight`, the hit-or-miss decision, and the weight updates that
 * reinforce an entry after its code has been validated.
 *
 * The vector store is an in-memory map from point id to payload. The embedding service and the
 * store's nearest-neighbour search are one oracle, `search`, that maps a query text, a result
 * limit and a cosine threshold to the hits the store returns; the content digest is the oracle
 * `digest`.
 */
module Retrieval {
  import opened Base
  import opened Text
  import opened WeightPolicy

  /** The compact text that is embedded for similarity search. */
  function QueryToken(name: string, description: string, ports: seq<string>): (r: string) {
    "module: " + name + "\ndesc: " + description + "\nports: " + Join(", ", ports)
  }

  /** The query text without ports ends in an empty port part. */
  lemma QueryTokenNoPorts(name: string, description: string)
    ensures QueryToken(name, description, []) == "module: " + name + "\ndesc: " + description + "\nports: "
  {
  }

  /** Names and descriptions on one line each can be read back from the query text. */
  lemma QueryTokenDetermines(n1: string, d1: string, p1: seq<string>, n2: string, d2: string, p2: seq<string>)
    requires '\n' !in n1 && '\n' !in n2 && '\n' !in d1 && '\n' !in d2
    requires QueryToken(n1, d1, p1) == QueryToken(n2, d2, p2)
    ensures n1 == n2 && d1 == d2 && Join(", ", p1) == Join(", ", p2)
  {
    var j1, j2 := Join(", ", p1), Join(", ", p2);
    TokenShape(n1, d1, j1);
    TokenShape(n2, d2, j2);
    var x1, x2 := "\ndesc: " + (d1 + ("\nports: " + j1)), "\ndesc: " + (d2 + ("\nports: " + j2));
    DropPrefix("module: ", n1 + x1, n2 + x2);
    UpToLineBreak(n1, x1, n2, x2);
    DropPrefix("\ndesc: ", d1 + ("\nports: " + j1), d2 + ("\nports: " + j2));
    UpToLineBreak(d1, "\nports: " + j1, d2, "\nports: " + j2);
    DropPrefix("\nports: ", j1, j2);
  }

  /** The query text, bracketed from the right. */
  lemma TokenShape(n: string, d: string, j: string)
    ensures "module: " + n + "\ndesc: " + d + "\nports: " + j == "module: " + (n + ("\ndesc: " + (d + ("\nports: " + j))))
  {
  }

  /** Equal texts with a common prefix agree after it. */
  lemma DropPrefix(p: string, u: string, v: string)
    requires p + u == p + v
    ensures u == v
  {
    assert u == (p + u)[|p|..];
  }

  /** Two texts that each run up to a line break and then go on identically in line break first agree up to it. */
  lemma UpToLineBreak(a: string, x: string, b: string, y: string)
    requires '\n' !in a && '\n' !in b && x != [] && y != [] && x[0] == '\n' && y[0] == '\n'
    requires a + x == b + y
    ensures a == b && x == y
  {
    var t := a + x;
    assert t[|a|] == '\n' && t[|b|] == '\n';
    assert forall k | 0 <= k < |a| :: t[k] == a[k];
    assert forall k | 0 <= k < |b| :: t[k] == b[k];
    assert |a| == |b|;
    assert a == t[..|a|] && b == t[..|b|];
    assert x == t[|a|..] && y == t[|b|..];
  }

  /**
   * The string a point id is derived from: the module name and the digest of the code. The id
   * itself is a name-based UUID of this string, taken here to be the string itself.
   */
  function PointKey(moduleName: string, codeDigest: string): (r: string) {
    moduleName + ":" + codeDigest
  }

  /** The id determines the module name and the code digest, as long as names hold no colon. */
  lemma PointKeyDetermines(n1: string, h1: string, n2: string, h2: string)
    requires ':' !in n1 && ':' !in n2
    requires PointKey(n1, h1) == PointKey(n2, h2)
    ensures n1 == n2 && h1 == h2
  {
    var t := PointKey(n1, h1);
    assert t[|n1|] == ':' && t[|n2|] == ':';
    assert forall k | 0 <= k < |n1| :: t[k] == n1[k];
    assert forall k | 0 <= k < |n2| :: t[k] == n2[k];
    assert |n1| == |n2|;
    assert n1 == t[..|n1|] == n2;
    assert h1 == t[|n1| + 1..] == h2;
  }

  /** A freshly written payload: the given weight and tags, no uses counted, no flags set. */
  function FreshPayload(name: string, description: string, interfaceSig: seq<string>, code: string,
                        weight: real, tags: seq<string>, codeDigest: string): (p: Payload)
    ensures p.weight == weight && p.successCount == 0 && p.failCount == 0
    ensures !p.gc && !p.secondChanceGiven && p.codeText == code && p.moduleName == name
  {
    Payload(name, description, interfaceSig, code, weight, 0, 0, codeDigest, tags, false, false)
  }

  /** One hit of the store's similarity search: a point id and its cosine similarity to the query. */
  datatype Hit = Hit(id: string, cosine: real)

  /** A re-ranked hit. `payload` is absent when the store returned the point without one. */
  datatype Candidate = Candidate(pointId: string, cosine: real, weight: real, score: real, payload: Option<Payload>)

  /** The store's search: query text, result limit, cosine threshold, to hits. */
  type Search = (string, nat, real) -> seq<Hit>

  /** How many hits are asked of the store before re-ranking: `max(20, 3 * top_k)`. */
  function SearchLimit(topK: nat): (n: nat)
    ensures n >= 20 && n >= 3 * topK && (n == 20 || n == 3 * topK)
  {
    if 3 * topK > 20 then 3 * topK else 20
  }

  /** The cosine threshold the hit-or-miss decision searches with. */
  const RetrieveMinCosine: real := 0.15

  /** The default for the hit-or-miss threshold on the best score. */
  const DefaultScoreThreshold: real := 0.35

  /** The number of candidates kept after re-ranking, unless the caller says otherwise. */
  const DefaultTopK: nat := 5

  /** The re-ranking score of a hit. */
  function Score(cosine: real, weight: real): real {
    cosine * weight
  }

  /** A hit re-ranked by its weight; a point without payload weighs the default 0.5. */
  function Rank(h: Hit, store: map<string, Payload>): (c: Candidate)
    ensures c.pointId == h.id && c.cosine == h.cosine && c.score == Score(c.cosine, c.weight)
    ensures c.payload == if h.id in store then Some(store[h.id]) else None
    ensures c.weight == if h.id in store then store[h.id].weight else DefaultWeight
  {
    var pl := if h.id in store then Some(store[h.id]) else None;
    var w := if pl.Some? then pl.value.weight else DefaultWeight;
    Candidate(h.id, h.cosine, w, Score(h.cosine, w), pl)
  }

  /** Every hit, re-ranked, in the order the store returned them. */
  function RankAll(hits: seq<Hit>, store: map<string, Payload>): (r: seq<Candidate>)
    ensures |r| == |hits| && forall i | 0 <= i < |hits| :: r[i] == Rank(hits[i], store)
  {
    seq(|hits|, i requires 0 <= i < |hits| => Rank(hits[i], store))
  }

  /** Non-increasing by score. */
  predicate SortedByScore(cs: seq<Candidate>) {
    forall i, j | 0 <= i < j < |cs| :: cs[i].score >= cs[j].score
  }

  /** Inserts `c` into a sorted list after every candidate that scores at least as much. */
  function InsertByScore(cs: seq<Candidate>, c: Candidate): (r: seq<Candidate>)
    requires SortedByScore(cs)
    ensures SortedByScore(r) && multiset(r) == multiset(cs) + multiset{c}
    ensures |r| == |cs| + 1 && (r[0] == c || (cs != [] && r[0] == cs[0]))
  {
    if cs == [] then [c]
    else if cs[0].score >= c.score then
      var rest := InsertByScore(cs[1..], c);
      SortedCons(cs[0], rest);
      assert cs == [cs[0]] + cs[1..];
      [cs[0]] + rest
    else
      SortedCons(c, cs);
      [c] + cs
  }

  /** Putting a candidate in front of a sorted list that it scores at least as much as the head of keeps it sorted. */
  lemma SortedCons(x: Candidate, rest: seq<Candidate>)
    requires SortedByScore(rest) && (rest == [] || x.score >= rest[0].score)
    ensures SortedByScore([x] + rest)
  {
    var r := [x] + rest;
    forall i, j | 0 <= i < j < |r| ensures r[i].score >= r[j].score {
      if i == 0 {
        assert r[j] == rest[j - 1];
      } else {
        assert r[i] == rest[i - 1] && r[j] == rest[j - 1];
      }
    }
  }

  /** `list.sort(key=score, reverse=True)`: a stable sort by non-increasing score. */
  function SortByScore(cs: seq<Candidate>): (r: seq<Candidate>)
    ensures SortedByScore(r) && multiset(r) == multiset(cs)
  {
    if cs == [] then []
    else
      assert cs == cs[..|cs| - 1] + [cs[|cs| - 1]];
      InsertByScore(SortByScore(cs[..|cs| - 1]), cs[|cs| - 1])
  }

  /** The candidates a search returns: every hit re-ranked, best first, the first `topK` kept. */
  function Candidates(hits: seq<Hit>, store: map<string, Payload>, topK: nat): (r: seq<Candidate>) {
    PySliceTo(SortByScore(RankAll(hits, store)), topK)
  }

  /**
   * The kept candidates are at most `topK` re-ranked hits, best first, and no hit left out
   * scores more than any kept one.
   */
  lemma CandidatesAreTopK(hits: seq<Hit>, store: map<string, Payload>, topK: nat)
    ensures var r, all := Candidates(hits, store, topK), SortByScore(RankAll(hits, store));
      |r| == (if topK <= |hits| then topK else |hits|)
      && SortedByScore(r)
      && r == all[..|r|]
      && multiset(all) == multiset(RankAll(hits, store))
      && forall i, j | 0 <= i < |r| <= j < |all| :: r[i].score >= all[j].score
  {
  }

  /** `c` is what re-ranking makes of a hit on its point in `store`. */
  predicate RankedFrom(c: Candidate, store: map<string, Payload>) {
    c.score == Score(c.cosine, c.weight)
    && (c.payload.Some? <==> c.pointId in store)
    && (c.pointId in store ==> c.payload.value == store[c.pointId] && c.weight == store[c.pointId].weight)
    && (c.pointId !in store ==> c.weight == DefaultWeight)
  }

  /** Every kept candidate is a re-ranked hit: its score is its cosine times its entry's weight. */
  lemma CandidatesRanked(hits: seq<Hit>, store: map<string, Payload>, topK: nat)
    ensures var r := Candidates(hits, store, topK);
      forall i | 0 <= i < |r| :: RankedFrom(r[i], store)
  {
    var all := RankAll(hits, store);
    var sorted := SortByScore(all);
    assert forall i | 0 <= i < |all| :: RankedFrom(all[i], store);
    PermutationKeeps(all, sorted, store);
    var r := Candidates(hits, store, topK);
    assert r == sorted[..|r|];
    forall i | 0 <= i < |r| ensures RankedFrom(r[i], store) {
      assert r[i] == sorted[i];
    }
  }

  /** A reordering of re-ranked hits holds only re-ranked hits. */
  lemma PermutationKeeps(xs: seq<Candidate>, ys: seq<Candidate>, store: map<string, Payload>)
    requires multiset(xs) == multiset(ys)
    requires forall i | 0 <= i < |xs| :: RankedFrom(xs[i], store)
    ensures forall i | 0 <= i < |ys| :: RankedFrom(ys[i], store)
  {
    forall i | 0 <= i < |ys| ensures RankedFrom(ys[i], store) {
      assert ys[i] in multiset(ys);
      assert ys[i] in xs;
      var k :| 0 <= k < |xs| && xs[k] == ys[i];
    }
  }

  /** A sorted list has a best score at its head: the head reaches a threshold iff some element does. */
  lemma HeadIsBest(cs: seq<Candidate>, threshold: real)
    requires SortedByScore(cs) && cs != []
    ensures cs[0].score >= threshold <==> exists i | 0 <= i < |cs| :: cs[i].score >= threshold
  {
  }

  /** What the driver gets back from the hit-or-miss decision. */
  datatype Meta =
    | LibraryHit(pointId: string, cosine: real, weight: real, tags: seq<string>)
    | NoCandidates
    | BelowThreshold(bestScore: real, threshold: real)

  datatype Retrieved = Retrieved(code: string, meta: Meta, hit: bool)

  /**
   * The hit-or-miss decision on values: what a retrieval returns and the store it leaves. Only
   * a hit changes the store, by a success update of the entry it came from, so no entry is
   * added or removed.
   */
  function Retrieve(store: map<string, Payload>, name: string, description: string, interfaceSig: seq<string>,
                     scoreThreshold: real, topK: nat, search: Search): (r: (Result<Retrieved, string>, map<string, Payload>))
    ensures r.1.Keys == store.Keys
    ensures r.0.Ok? && !r.0.value.hit ==> r.1 == store
  {
    var hits := search(QueryToken(name, description, interfaceSig), SearchLimit(topK), RetrieveMinCosine);
    var cs := Candidates(hits, store, topK);
    if cs == [] then (Ok(Retrieved("", NoCandidates, false)), store)
    else if cs[0].score < scoreThreshold then (Ok(Retrieved("", BelowThreshold(cs[0].score, scoreThreshold), false)), store)
    else if cs[0].payload.None? then (Err("KeyError: 'code_text'"), store)
    else
      var best := cs[0];
      CandidatesRanked(hits, store, topK);
      assert RankedFrom(best, store);
      (Ok(Retrieved(best.payload.value.codeText, LibraryHit(best.pointId, best.cosine, best.weight, best.payload.value.tags), true)),
       store[best.pointId := Update(store[best.pointId], true, false)])
  }

  /** The library: the store's points, keyed by id. */
  class Library {
    var store: map<string, Payload>
    const digest: string -> string

    constructor (digest: string -> string)
      ensures store == map[] && this.digest == digest
    {
      store := map[];
      this.digest := digest;
    }

    /** Writes a fresh payload under the id of this name and code, replacing whatever was there. */
    method Upsert(name: string, description: string, interfaceSig: seq<string>, code: string,
                  weight: real, tags: seq<string>) returns (id: string)
      modifies this
      ensures id == PointKey(name, digest(code))
      ensures store == old(store)[id := FreshPayload(name, description, interfaceSig, code, weight, tags, digest(code))]
    {
      var h := digest(code);
      id := PointKey(name, h);
      store := store[id := FreshPayload(name, description, interfaceSig, code, weight, tags, h)];
    }

    /** Applies the weight rule to one entry; an unknown id changes nothing. */
    method UpdateWeight(id: string, success: bool, secondChanceArg: bool)
      modifies this
      ensures id !in old(store) ==> store == old(store)
      ensures id in old(store) ==> store == old(store)[id := Update(old(store)[id], success, secondChanceArg)]
    {
      if id !in store {
        return;
      }
      var pl := store[id];
      store := store[id := Update(pl, success, secondChanceArg)];
    }

    /** The top `topK` hits for this module, re-ranked by `cosine * weight`. */
    method SearchCandidates(name: string, description: string, interfaceSig: seq<string>,
                            topK: nat, minCosine: real, search: Search) returns (r: seq<Candidate>)
      ensures r == Candidates(search(QueryToken(name, description, interfaceSig), SearchLimit(topK), minCosine), store, topK)
      ensures |r| <= topK && SortedByScore(r)
      ensures forall i | 0 <= i < |r| :: RankedFrom(r[i], store)
    {
      var query := QueryToken(name, description, interfaceSig);
      var results := search(query, SearchLimit(topK), minCosine);
      var ranked: seq<Candidate> := [];
      for i := 0 to |results|
        invariant |ranked| == i
        invariant forall k | 0 <= k < i :: ranked[k] == Rank(results[k], store)
      {
        ranked := ranked + [Rank(results[i], store)];
      }
      assert ranked == RankAll(results, store);
      var sorted := SortByScore(ranked);
      r := PySliceTo(sorted, topK);
      CandidatesAreTopK(results, store, topK);
      CandidatesRanked(results, store, topK);
    }

    /**
     * Searches with the lower cosine threshold and decides: no candidates is a miss, a best
     * score at or above the threshold is a hit that returns the stored code after an optimistic
     * success update, anything else is a miss. A hit on a point without payload fails, since
     * its code cannot be read.
     */
    method RetrieveOrGenerate(name: string, description: string, interfaceSig: seq<string>,
                              scoreThreshold: real, topK: nat, search: Search)
      returns (res: Result<Retrieved, string>)
      modifies this
      ensures (res, store) == Retrieve(old(store), name, description, interfaceSig, scoreThreshold, topK, search)
      ensures var cs := Candidates(search(QueryToken(name, description, interfaceSig), SearchLimit(topK),
                                          RetrieveMinCosine), old(store), topK);
        (cs == [] ==> res == Ok(Retrieved("", NoCandidates, false)) && store == old(store))
        && (cs != [] && cs[0].score < scoreThreshold ==>
              res == Ok(Retrieved("", BelowThreshold(cs[0].score, scoreThreshold), false)) && store == old(store))
        && (cs != [] && cs[0].score >= scoreThreshold && cs[0].payload.None? ==> res.Err? && store == old(store))
        && (cs != [] && cs[0].score >= scoreThreshold && cs[0].payload.Some? ==>
              var best := cs[0];
              res == Ok(Retrieved(best.payload.value.codeText,
                                  LibraryHit(best.pointId, best.cosine, best.weight, best.payload.value.tags), true))
              && best.pointId in old(store)
              && store == old(store)[best.pointId := Update(old(store)[best.pointId], true, false)])
    {
      var cands := SearchCandidates(name, description, interfaceSig, topK, RetrieveMinCosine, search);
      if |cands| == 0 {
        return Ok(Retrieved("", NoCandidates, false));
      }
      var best := cands[0];
      if best.score >= scoreThreshold {
        if best.payload.None? {
          return Err("KeyError: 'code_text'");
        }
        var code := best.payload.value.codeText;
        UpdateWeight(best.pointId, true, false);
        return Ok(Retrieved(code, LibraryHit(best.pointId, best.cosine, best.weight, best.payload.value.tags), true));
      }
      return Ok(Retrieved("", BelowThreshold(best.score, scoreThreshold), false));
    }

    /** After validation, reports the outcome against the entry a hit came from; otherwise does nothing. */
    method Reinforce(meta: Meta, success: bool)
      modifies this
      ensures var pid := if meta.LibraryHit? then meta.pointId else "";
        store == if pid != [] && pid in old(store) then old(store)[pid := Update(old(store)[pid], success, false)]
                 else old(store)
    {
      if !meta.LibraryHit? || meta.pointId == "" {
        return;
      }
      UpdateWeight(meta.pointId, success, false);
    }
  }
}
