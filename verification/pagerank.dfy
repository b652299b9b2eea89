/**
 * PageRank by the random-surfer model over a small corpus of pages: the
 * one-step transition distribution from a page, and the estimate of the
 * ranks from the visit counts of a sampled walk.
 *
 * Probabilities are exact reals. The random draws of the walk come from an
 * oracle: the index of the start page in the list of the corpus, and for
 * each step the index of the next page in the list of the transition
 * model's pages.
 */
module PageRank {

  type Page = string

  /** Each page of the corpus with the set of pages it links to. */
  type Corpus = map<Page, set<Page>>

  /** A probability for each page. */
  type Distribution = map<Page, real>

  // ---------------------------------------------------------------------
  // Sums over maps
  // ---------------------------------------------------------------------

  /** Some element of a non-empty set. */
  ghost function Pick(s: set<Page>): (k: Page)
    requires s != {}
    ensures k in s
  {
    var k :| k in s; k
  }

  /** The sum of the values of m, taken in no particular order. */
  ghost function Sum(m: map<Page, real>): real
    decreases m.Keys
  {
    if m.Keys == {} then 0.0
    else
      var k := Pick(m.Keys);
      m[k] + Sum(m - {k})
  }

  /** The sum does not depend on which key is taken out first. */
  lemma {:induction false} SumPick(m: map<Page, real>, k: Page)
    requires k in m
    ensures Sum(m) == m[k] + Sum(m - {k})
    decreases m.Keys
  {
    var j := Pick(m.Keys);
    if j != k {
      SumPick(m - {j}, k);
      SumPick(m - {k}, j);
      assert m - {j} - {k} == m - {k} - {j};
    }
  }

  /** Replacing one value changes the sum by the difference. */
  lemma SumUpdate(m: map<Page, real>, k: Page, v: real)
    requires k in m
    ensures Sum(m[k := v]) == Sum(m) - m[k] + v
  {
    SumPick(m[k := v], k);
    SumPick(m, k);
    assert m[k := v] - {k} == m - {k};
  }

  /** n copies of x added up. */
  ghost function Times(n: nat, x: real): real {
    if n == 0 then 0.0 else x + Times(n - 1, x)
  }

  /** n copies of x / n add up to x. */
  lemma {:induction false} ShareOut(n: nat, x: real)
    requires n > 0
    ensures Times(n, x / (n as real)) == x
  {
    TimesIsProduct(n, x / (n as real));
  }

  lemma {:induction false} TimesIsProduct(n: nat, x: real)
    ensures Times(n, x) == (n as real) * x
  {
    if n > 0 {
      TimesIsProduct(n - 1, x);
    }
  }

  /** A map giving c to every key, plus e to the keys in L, sums to |m| copies of c and |keys in L| copies of e. */
  lemma {:induction false} SumAffine(m: map<Page, real>, L: set<Page>, c: real, e: real)
    requires forall k :: k in m ==> m[k] == c + (if k in L then e else 0.0)
    ensures Sum(m) == Times(|m.Keys|, c) + Times(|m.Keys * L|, e)
    decreases m.Keys
  {
    if m.Keys == {} {
      assert m.Keys * L == {};
    } else {
      var k := Pick(m.Keys);
      var r := m - {k};
      SumPick(m, k);
      SumAffine(r, L, c, e);
      assert r.Keys == m.Keys - {k};
      assert r.Keys * L == m.Keys * L - {k};
      assert |m.Keys| == |r.Keys| + 1;
      assert Times(|m.Keys|, c) == c + Times(|r.Keys|, c);
      assert Sum(m) == m[k] + Sum(r);
      if k in L {
        assert |m.Keys * L| == |r.Keys * L| + 1;
        assert Times(|m.Keys * L|, e) == e + Times(|r.Keys * L|, e);
      } else {
        assert m.Keys * L == r.Keys * L;
      }
    }
  }

  /** Dividing every value by n divides the sum by n. */
  lemma {:induction false} SumScale(m: map<Page, real>, q: map<Page, real>, n: real)
    requires n != 0.0 && q.Keys == m.Keys
    requires forall k :: k in m ==> q[k] == m[k] / n
    ensures Sum(q) == Sum(m) / n
    decreases m.Keys
  {
    if m.Keys == {} {
      assert q.Keys == {};
    } else {
      var k := Pick(m.Keys);
      var mr, qr := m - {k}, q - {k};
      assert mr.Keys == m.Keys - {k} && qr.Keys == mr.Keys;
      SumScale(mr, qr, n);
      SumPick(q, k);
      SumPick(m, k);
      DivideSum(Sum(q), q[k], Sum(qr), Sum(m), m[k], Sum(mr), n);
    }
  }

  /** If t = a + b and u = c + d with a = c / n and b = d / n, then t = u / n. */
  lemma DivideSum(t: real, a: real, b: real, u: real, c: real, d: real, n: real)
    requires n != 0.0
    requires t == a + b && u == c + d
    requires a == c / n
    requires b == d / n
    ensures t == u / n
  {
  }

  // ---------------------------------------------------------------------
  // The transition model
  // ---------------------------------------------------------------------

  /**
   * The distribution of the next page from page: uniform over the corpus
   * when page links nowhere; otherwise (1 - damping) / N for every page
   * plus damping / outdegree for each page it links to.
   */
  function Transition(corpus: Corpus, page: Page, damping: real): (model: Distribution)
    requires page in corpus
    ensures model.Keys == corpus.Keys
  {
    var n := |corpus| as real;
    var links := corpus[page];
    if links == {} then
      map k | k in corpus :: 1.0 / n
    else
      map k | k in corpus :: (1.0 - damping) / n + (if k in links then damping / (|links| as real) else 0.0)
  }

  /**
   * Builds the transition distribution page by page, as a loop over the
   * corpus, first the uniform share and then, when page has links, the
   * share of each linked page. Every page of the corpus gets an entry, and
   * the result is the distribution Transition describes.
   */
  method TransitionModel(corpus: Corpus, page: Page, damping: real) returns (res: Distribution)
    requires page in corpus
    ensures res.Keys == corpus.Keys
    ensures res == Transition(corpus, page, damping)
  {
    ghost var model := Transition(corpus, page, damping);
    res := map[];
    if corpus[page] == {} {
      var prob := 1.0 / (|corpus| as real);
      var todo := corpus.Keys;
      while todo != {}
        invariant todo <= corpus.Keys
        invariant res.Keys == corpus.Keys - todo
        invariant forall k :: k in res ==> res[k] == model[k]
        decreases todo
      {
        var key :| key in todo;
        res := res[key := prob];
        todo := todo - {key};
      }
      return;
    }
    var probFromPage := damping / (|corpus[page]| as real);
    var probRandom := (1.0 - damping) / (|corpus| as real);
    var todo := corpus.Keys;
    while todo != {}
      invariant todo <= corpus.Keys
      invariant res.Keys == corpus.Keys - todo
      invariant forall k :: k in res ==> res[k] == model[k]
      decreases todo
    {
      var key :| key in todo;
      res := res[key := probRandom];
      if key in corpus[page] {
        res := res[key := res[key] + probFromPage];
      }
      todo := todo - {key};
    }
  }

  /**
   * When the links of page all lie in the corpus, the transition
   * probabilities add up to exactly 1, whatever the damping factor.
   */
  lemma TransitionSumsToOne(corpus: Corpus, page: Page, damping: real)
    requires page in corpus && corpus[page] <= corpus.Keys
    ensures Sum(Transition(corpus, page, damping)) == 1.0
  {
    var model := Transition(corpus, page, damping);
    var n := |corpus.Keys|;
    var links := corpus[page];
    assert model.Keys == corpus.Keys;
    assert |corpus| == n;
    if links == {} {
      SumAffine(model, {}, 1.0 / (n as real), 0.0);
      ShareOut(n, 1.0);
      assert model.Keys * {} == {};
    } else {
      var l := |links|;
      SumAffine(model, links, (1.0 - damping) / (n as real), damping / (l as real));
      assert model.Keys * links == links;
      ShareOut(n, 1.0 - damping);
      ShareOut(l, damping);
    }
  }

  /** For a damping factor between 0 and 1 every transition probability lies between 0 and 1. */
  lemma TransitionBounds(corpus: Corpus, page: Page, damping: real)
    requires page in corpus && 0.0 <= damping <= 1.0
    ensures forall k :: k in Transition(corpus, page, damping) ==>
      0.0 <= Transition(corpus, page, damping)[k] <= 1.0
  {
    var model := Transition(corpus, page, damping);
    var n := |corpus| as real;
    var links := corpus[page];
    assert n >= 1.0;
    if links != {} {
      var l := |links| as real;
      assert l >= 1.0;
      assert (1.0 - damping) / n <= 1.0 - damping;
      assert damping / l <= damping;
    }
  }

  // ---------------------------------------------------------------------
  // Sampling
  // ---------------------------------------------------------------------

  /** The pages of a map, each listed once, with their values in the same order. */
  method Items<V>(m: map<Page, V>) returns (keys: seq<Page>, values: seq<V>)
    ensures |keys| == |values| == |m|
    ensures forall i :: 0 <= i < |keys| ==> keys[i] in m && values[i] == m[keys[i]]
    ensures forall k :: k in m ==> k in keys
    ensures forall i, j :: 0 <= i < j < |keys| ==> keys[i] != keys[j]
  {
    keys, values := [], [];
    var todo := m.Keys;
    while todo != {}
      invariant todo <= m.Keys
      invariant |keys| == |values| && |keys| + |todo| == |m.Keys|
      invariant forall i :: 0 <= i < |keys| ==> keys[i] in m && keys[i] !in todo && values[i] == m[keys[i]]
      invariant forall k :: k in m && k !in todo ==> k in keys
      invariant forall i, j :: 0 <= i < j < |keys| ==> keys[i] != keys[j]
      decreases todo
    {
      var k :| k in todo;
      keys, values := keys + [k], values + [m[k]];
      todo := todo - {k};
    }
  }

  /** The counts as reals, for summing. */
  ghost function Reals(counts: map<Page, nat>): map<Page, real> {
    map p | p in counts :: counts[p] as real
  }

  /** Counts that are all zero add up to zero. */
  lemma ZeroCounts(counts: map<Page, nat>)
    requires forall p :: p in counts ==> counts[p] == 0
    ensures Sum(Reals(counts)) == 0.0
  {
    SumAffine(Reals(counts), {}, 0.0, 0.0);
    TimesIsProduct(|Reals(counts).Keys|, 0.0);
    TimesIsProduct(0, 0.0);
    assert Reals(counts).Keys * {} == {};
  }

  /**
   * counts tallies the walk visits over the corpus: every visit is a page
   * of the corpus, each page's count is the number of its visits, and so
   * the counts add up to the length of the walk.
   */
  ghost predicate Tally(corpus: Corpus, counts: map<Page, nat>, visits: seq<Page>) {
    && counts.Keys == corpus.Keys
    && (forall v :: v in visits ==> v in corpus)
    && (forall p :: p in counts ==> counts[p] == multiset(visits)[p])
    && Sum(Reals(counts)) == |visits| as real
  }

  /** All counts at zero except a 1 for the start page tally the one-page walk. */
  lemma TallyStart(corpus: Corpus, counts: map<Page, nat>, start: Page)
    requires counts.Keys == corpus.Keys && start in corpus
    requires forall p :: p in counts ==> counts[p] == 0
    ensures Tally(corpus, counts[start := 1], [start])
  {
    ZeroCounts(counts);
    assert Reals(counts[start := 1]) == Reals(counts)[start := 1.0];
    SumUpdate(Reals(counts), start, 1.0);
  }

  /** Counting one more visit of a corpus page keeps the tally. */
  lemma TallyStep(corpus: Corpus, counts: map<Page, nat>, visits: seq<Page>, next: Page)
    requires Tally(corpus, counts, visits) && next in corpus
    ensures Tally(corpus, counts[next := counts[next] + 1], visits + [next])
  {
    assert Reals(counts[next := counts[next] + 1]) == Reals(counts)[next := (counts[next] + 1) as real];
    SumUpdate(Reals(counts), next, (counts[next] + 1) as real);
    assert multiset(visits + [next]) == multiset(visits) + multiset{next};
  }

  /**
   * One step of the walk: the page at position draw in the list of the
   * pages of current's transition model.
   */
  method NextPage(corpus: Corpus, current: Page, damping: real, draw: nat) returns (next: Page)
    requires current in corpus && draw < |corpus|
    ensures next in corpus
  {
    var model := TransitionModel(corpus, current, damping);
    var pages, weights := Items(model);
    next := pages[draw];
  }

  /**
   * The visit counts of the walk: every page starts at 0, the start page
   * (position first in the list of the corpus) is counted once, then each
   * of the |draws| steps moves to the page at position draws[t] in the list
   * of the current page's transition model and counts it. visits is the
   * walk itself, start page included.
   */
  method WalkCounts(corpus: Corpus, damping: real, first: nat, draws: seq<nat>)
    returns (counts: map<Page, nat>, ghost visits: seq<Page>)
    requires first < |corpus|
    requires forall t :: 0 <= t < |draws| ==> draws[t] < |corpus|
    ensures counts.Keys == corpus.Keys
    ensures |visits| == |draws| + 1
    ensures Tally(corpus, counts, visits)
  {
    counts := map p | p in corpus :: 0;
    var pages, links := Items(corpus);
    var current := pages[first];
    TallyStart(corpus, counts, current);
    counts := counts[current := 1];
    visits := [current];
    for t := 0 to |draws|
      invariant current in corpus
      invariant |visits| == t + 1
      invariant Tally(corpus, counts, visits)
    {
      current := NextPage(corpus, current, damping, draws[t]);
      TallyStep(corpus, counts, visits, current);
      counts := counts[current := counts[current] + 1];
      visits := visits + [current];
    }
  }

  /** Each count divided by n: the shares add up to the total count divided by n. */
  lemma RanksSum(counts: map<Page, nat>, ranks: Distribution, n: nat)
    requires n > 0 && ranks.Keys == counts.Keys
    requires forall p :: p in ranks ==> ranks[p] == (counts[p] as real) / (n as real)
    ensures Sum(ranks) == Sum(Reals(counts)) / (n as real)
  {
    SumScale(Reals(counts), ranks, n as real);
  }

  lemma OverOne(n: nat)
    requires n > 0
    ensures ((n + 1) as real) / (n as real) > 1.0
  {
  }

  lemma WholeShare(n: nat)
    requires n > 0
    ensures (n as real) / (n as real) == 1.0
  {
  }

  /**
   * The sampling estimate as the code computes it: the start page and n
   * further steps are counted, and each count is divided by n. The values
   * therefore add up to (n + 1) / n, which is more than 1.
   */
  method SamplePagerank(corpus: Corpus, damping: real, n: nat, first: nat, draws: seq<nat>)
    returns (ranks: Distribution, ghost visits: seq<Page>)
    requires n >= 1
    requires first < |corpus|
    requires |draws| == n && forall t :: 0 <= t < n ==> draws[t] < |corpus|
    ensures ranks.Keys == corpus.Keys
    ensures |visits| == n + 1 && forall v :: v in visits ==> v in corpus
    ensures forall p :: p in ranks ==> ranks[p] == (multiset(visits)[p] as real) / (n as real)
    ensures Sum(ranks) == ((n + 1) as real) / (n as real)
    ensures Sum(ranks) > 1.0
  {
    var counts;
    counts, visits := WalkCounts(corpus, damping, first, draws);
    ranks := map p | p in counts :: (counts[p] as real) / (n as real);
    RanksSum(counts, ranks, n);
    OverOne(n);
  }

  /**
   * The sampling estimate as documented: n samples in all, the random start
   * page being the first, so the walk takes n - 1 steps and the values, each
   * count divided by n, add up to exactly 1.
   */
  method SamplePagerankCorrected(corpus: Corpus, damping: real, n: nat, first: nat, draws: seq<nat>)
    returns (ranks: Distribution, ghost visits: seq<Page>)
    requires n >= 1
    requires first < |corpus|
    requires |draws| == n - 1 && forall t :: 0 <= t < n - 1 ==> draws[t] < |corpus|
    ensures ranks.Keys == corpus.Keys
    ensures |visits| == n && forall v :: v in visits ==> v in corpus
    ensures forall p :: p in ranks ==> ranks[p] == (multiset(visits)[p] as real) / (n as real)
    ensures Sum(ranks) == 1.0
  {
    var counts;
    counts, visits := WalkCounts(corpus, damping, first, draws);
    ranks := map p | p in counts :: (counts[p] as real) / (n as real);
    RanksSum(counts, ranks, n);
    WholeShare(n);
  }
}
