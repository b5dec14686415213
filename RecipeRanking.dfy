/** Preference-weighted ranking (`sortRecipesByHistory` in
    Components/sortRecipesByHistory.js): each recipe gets the sum of the
    history counts of its keywords as `weight`, and the weighted copies are
    sorted by weight, highest first, keeping the input order among equal
    weights (`Array.prototype.sort` is stable). */
module RecipeRanking {
  import opened Recipes
  import opened Preferences

  // ---------------------------------------------------------------------
  // Weights

  /** The `forEach` sum of `history[keyword] || 0`, repeats counted. */
  function Weight(keywords: seq<string>, h: map<string, nat>): nat
    decreases |keywords|
  {
    if keywords == [] then 0
    else Weight(keywords[..|keywords| - 1], h) + Count(h, keywords[|keywords| - 1])
  }

  /** The weight of a recipe: 0 unless `keywords` is an array. */
  function RecipeWeight(r: Recipe, h: map<string, nat>): nat {
    match r.keywords
    case Items(ks) => Weight(ks, h)
    case _ => 0
  }

  /** `{ ...recipe, weight }`. */
  function WithWeight(r: Recipe, h: map<string, nat>): Recipe {
    r.(weight := Some(RecipeWeight(r, h)))
  }

  /** The sort key `weight` of a weighted copy. */
  function Key(r: Recipe): nat {
    match r.weight
    case Some(w) => w
    case None => 0
  }

  /** The weight of a concatenation is the sum of the weights. */
  lemma {:induction false} WeightAppend(a: seq<string>, b: seq<string>, h: map<string, nat>)
    ensures Weight(a + b, h) == Weight(a, h) + Weight(b, h)
    decreases |b|
  {
    if b == [] {
      assert a + b == a;
    } else {
      var init := b[..|b| - 1];
      WeightAppend(a, init, h);
      assert (a + b)[..|a + b| - 1] == a + init;
    }
  }

  /** With an empty history every weight is 0. */
  lemma {:induction false} WeightEmptyHistory(keywords: seq<string>)
    ensures Weight(keywords, map[]) == 0
    decreases |keywords|
  {
    if keywords != [] {
      WeightEmptyHistory(keywords[..|keywords| - 1]);
    }
  }

  /** A history that counts every keyword at least as often gives every
      keyword list at least the weight. */
  lemma {:induction false} WeightMonotone(keywords: seq<string>, h: map<string, nat>, h': map<string, nat>)
    requires forall k :: Count(h, k) <= Count(h', k)
    ensures Weight(keywords, h) <= Weight(keywords, h')
    decreases |keywords|
  {
    if keywords != [] {
      WeightMonotone(keywords[..|keywords| - 1], h, h');
    }
  }

  /** Saving keywords to the history never lowers the weight of a recipe. */
  lemma SaveNeverLowersWeight(r: Recipe, h: map<string, nat>, saved: seq<string>)
    ensures RecipeWeight(r, h) <= RecipeWeight(r, Increment(h, saved))
  {
    forall k
      ensures Count(h, k) <= Count(Increment(h, saved), k)
    {
      IncrementCounts(h, saved, k);
    }
    if r.keywords.Items? {
      WeightMonotone(r.keywords.items, h, Increment(h, saved));
    }
  }

  /** The weight is 0 when `keywords` is not an array or the history is empty. */
  lemma ZeroWeight(r: Recipe, h: map<string, nat>)
    requires !r.keywords.Items? || h == map[]
    ensures RecipeWeight(r, h) == 0
  {
    if r.keywords.Items? {
      WeightEmptyHistory(r.keywords.items);
    }
  }

  /** The loop of the `map` callback that sums one recipe's weight. */
  method ComputeWeight(r: Recipe, h: map<string, nat>) returns (weight: nat)
    ensures weight == RecipeWeight(r, h)
  {
    weight := 0;
    if r.keywords.Items? {
      var ks := r.keywords.items;
      var i := 0;
      while i < |ks|
        invariant 0 <= i <= |ks|
        invariant weight == Weight(ks[..i], h)
      {
        assert ks[..i + 1][..i] == ks[..i];
        weight := weight + (if ks[i] in h then h[ks[i]] else 0);
        i := i + 1;
      }
      assert ks[..|ks|] == ks;
    }
  }

  // ---------------------------------------------------------------------
  // The stable sort by descending weight

  predicate SortedByWeight(s: seq<Recipe>) {
    forall i, j :: 0 <= i < j < |s| ==> Key(s[i]) >= Key(s[j])
  }

  /** The elements of `s` whose weight is `w`, in their order in `s`. */
  function OfWeight(s: seq<Recipe>, w: nat): seq<Recipe>
    decreases |s|
  {
    if s == [] then []
    else OfWeight(s[..|s| - 1], w) + (if Key(s[|s| - 1]) == w then [s[|s| - 1]] else [])
  }

  /** Insert `x` after every element of `s`, from the end, whose weight is
      not below that of `x`. */
  function InsertByWeight(s: seq<Recipe>, x: Recipe): (r: seq<Recipe>)
    ensures |r| == |s| + 1
    decreases |s|
  {
    if s == [] || Key(s[|s| - 1]) >= Key(x) then s + [x]
    else InsertByWeight(s[..|s| - 1], x) + [s[|s| - 1]]
  }

  /** The reference stable sort, by weight, highest first. */
  function SortByWeight(s: seq<Recipe>): (r: seq<Recipe>)
    ensures |r| == |s|
    decreases |s|
  {
    if s == [] then [] else InsertByWeight(SortByWeight(s[..|s| - 1]), s[|s| - 1])
  }

  lemma {:induction false} OfWeightAppend(a: seq<Recipe>, b: seq<Recipe>, w: nat)
    ensures OfWeight(a + b, w) == OfWeight(a, w) + OfWeight(b, w)
    decreases |b|
  {
    if b == [] {
      assert a + b == a;
    } else {
      var init := b[..|b| - 1];
      OfWeightAppend(a, init, w);
      assert (a + b)[..|a + b| - 1] == a + init;
    }
  }

  lemma {:induction false} InsertPermutes(s: seq<Recipe>, x: Recipe)
    ensures multiset(InsertByWeight(s, x)) == multiset(s) + multiset{x}
    decreases |s|
  {
    if !(s == [] || Key(s[|s| - 1]) >= Key(x)) {
      var init := s[..|s| - 1];
      InsertPermutes(init, x);
      assert s == init + [s[|s| - 1]];
    }
  }

  lemma {:induction false} InsertSorted(s: seq<Recipe>, x: Recipe)
    requires SortedByWeight(s)
    ensures SortedByWeight(InsertByWeight(s, x))
    decreases |s|
  {
    if !(s == [] || Key(s[|s| - 1]) >= Key(x)) {
      var init, last := s[..|s| - 1], s[|s| - 1];
      InsertSorted(init, x);
      var r := InsertByWeight(init, x);
      InsertPermutes(init, x);
      forall i | 0 <= i < |r|
        ensures Key(r[i]) >= Key(last)
      {
        assert r[i] in multiset(r);
        assert r[i] in multiset(init) || r[i] == x;
      }
    }
  }

  lemma {:induction false} InsertOfWeight(s: seq<Recipe>, x: Recipe, w: nat)
    ensures OfWeight(InsertByWeight(s, x), w) == OfWeight(s, w) + OfWeight([x], w)
    decreases |s|
  {
    if s == [] || Key(s[|s| - 1]) >= Key(x) {
      OfWeightAppend(s, [x], w);
    } else {
      var init, last := s[..|s| - 1], s[|s| - 1];
      InsertOfWeight(init, x, w);
      OfWeightAppend(InsertByWeight(init, x), [last], w);
      OfWeightAppend(init, [last], w);
      assert s == init + [last];
    }
  }

  /** The reference sort returns a permutation of its input, ordered by
      non-increasing weight, in which the elements of each weight keep
      their input order: the sort is stable. */
  lemma {:induction false} SortByWeightSpec(s: seq<Recipe>)
    ensures multiset(SortByWeight(s)) == multiset(s)
    ensures SortedByWeight(SortByWeight(s))
    ensures forall w :: OfWeight(SortByWeight(s), w) == OfWeight(s, w)
    decreases |s|
  {
    if s != [] {
      var init, x := s[..|s| - 1], s[|s| - 1];
      SortByWeightSpec(init);
      InsertPermutes(SortByWeight(init), x);
      InsertSorted(SortByWeight(init), x);
      assert s == init + [x];
      forall w
        ensures OfWeight(SortByWeight(s), w) == OfWeight(s, w)
      {
        InsertOfWeight(SortByWeight(init), x, w);
        OfWeightAppend(init, [x], w);
      }
    }
  }

  /** Moving `x` past a lighter last element of `s[..j]`. */
  lemma InsertPastLighter(s: seq<Recipe>, j: nat, x: Recipe)
    requires 0 < j <= |s| && Key(s[j - 1]) < Key(x)
    ensures InsertByWeight(s[..j], x) + s[j..] == InsertByWeight(s[..j - 1], x) + s[j - 1..]
  {
    assert s[..j][..j - 1] == s[..j - 1];
    assert s[j - 1..] == [s[j - 1]] + s[j..];
  }

  /** `x` stops behind an element that is at least as heavy. */
  lemma InsertStops(s: seq<Recipe>, j: nat, x: Recipe)
    requires j <= |s| && (j == 0 || Key(s[j - 1]) >= Key(x))
    ensures InsertByWeight(s[..j], x) + s[j..] == s[..j] + [x] + s[j..]
  {
  }

  /** The array while `x` travels left: the sorted prefix with `x` at `j`, then the unsorted rest. */
  ghost function Layout(sorted: seq<Recipe>, j: nat, x: Recipe, rest: seq<Recipe>): seq<Recipe>
    requires j <= |sorted|
  {
    sorted[..j] + [x] + sorted[j..] + rest
  }

  /** Swapping `x` with its left neighbour moves it one place left. */
  lemma LayoutSwap(sorted: seq<Recipe>, j: nat, x: Recipe, rest: seq<Recipe>)
    requires 0 < j <= |sorted|
    ensures Layout(sorted, j, x, rest)[j - 1] == sorted[j - 1]
    ensures Layout(sorted, j, x, rest)[j] == x
    ensures Layout(sorted, j, x, rest)[j - 1 := x][j := sorted[j - 1]] == Layout(sorted, j - 1, x, rest)
  {
    var before, after := Layout(sorted, j, x, rest), Layout(sorted, j - 1, x, rest);
    var swapped := before[j - 1 := x][j := sorted[j - 1]];
    assert |swapped| == |after|;
    forall k | 0 <= k < |after|
      ensures swapped[k] == after[k]
    {
      if k < j - 1 {
        assert before[k] == sorted[k] && after[k] == sorted[k];
      } else if j < k < |sorted| + 1 {
        assert before[k] == sorted[k - 1] && after[k] == sorted[k - 1];
      } else if |sorted| < k {
        assert before[k] == rest[k - |sorted| - 1] && after[k] == rest[k - |sorted| - 1];
      }
    }
  }

  /** One step of the insertion sort: `a[i]` moves left past the lighter
      elements of the sorted prefix `a[..i]`, by swaps. */
  method InsertAt(a: array<Recipe>, i: nat)
    requires i < a.Length
    modifies a
    ensures a[..] == InsertByWeight(old(a[..i]), old(a[i])) + old(a[i + 1..])
  {
    ghost var sorted, rest := a[..i], a[i + 1..];
    var x := a[i];
    var j := i;
    assert a[..] == Layout(sorted, i, x, rest);
    assert sorted[..j] == sorted && sorted[j..] == [];
    while j > 0 && Key(a[j - 1]) < Key(x)
      invariant 0 <= j <= i
      invariant a[..] == Layout(sorted, j, x, rest)
      invariant InsertByWeight(sorted, x) + rest == InsertByWeight(sorted[..j], x) + sorted[j..] + rest
    {
      LayoutSwap(sorted, j, x, rest);
      InsertPastLighter(sorted, j, x);
      a[j - 1], a[j] := a[j], a[j - 1];
      j := j - 1;
    }
    InsertStops(sorted, j, x);
  }

  /** One outer step of the insertion sort, on sequences. */
  lemma SortStep(input: seq<Recipe>, i: nat)
    requires i < |input|
    ensures var current := SortByWeight(input[..i]) + input[i..];
      && current[..i] == SortByWeight(input[..i])
      && current[i] == input[i]
      && current[i + 1..] == input[i + 1..]
      && InsertByWeight(SortByWeight(input[..i]), input[i]) + input[i + 1..]
         == SortByWeight(input[..i + 1]) + input[i + 1..]
  {
    assert input[..i + 1][..i] == input[..i];
  }

  /** `weightedRecipes.sort((a, b) => b.weight - a.weight)`, in place, as
      an insertion sort that moves an element only past lighter ones. */
  method SortInPlace(a: array<Recipe>)
    modifies a
    ensures a[..] == SortByWeight(old(a[..]))
  {
    ghost var input := a[..];
    var i := 0;
    while i < a.Length
      invariant 0 <= i <= a.Length
      invariant a[..] == SortByWeight(input[..i]) + input[i..]
    {
      SortStep(input, i);
      InsertAt(a, i);
      i := i + 1;
    }
    assert input[..a.Length] == input;
  }

  // ---------------------------------------------------------------------
  // sortRecipesByHistory

  /** No entry is `null` or `undefined`: reading `recipe.keywords` of such
      an entry throws, and the `catch` returns the input unchanged. */
  predicate AllPresent(rs: seq<Option<Recipe>>) {
    forall i :: 0 <= i < |rs| ==> rs[i].Some?
  }

  /** `recipes.map((recipe) => ({ ...recipe, weight }))`. */
  function Weighted(rs: seq<Option<Recipe>>, h: map<string, nat>): seq<Recipe>
    requires AllPresent(rs)
  {
    seq(|rs|, i requires 0 <= i < |rs| => WithWeight(rs[i].value, h))
  }

  function Lift(s: seq<Recipe>): seq<Option<Recipe>> {
    seq(|s|, i requires 0 <= i < |s| => Some(s[i]))
  }

  function Values(rs: seq<Option<Recipe>>): seq<Recipe>
    requires AllPresent(rs)
  {
    seq(|rs|, i requires 0 <= i < |rs| => rs[i].value)
  }

  /** The specification of `sortRecipesByHistory` once the history is read. */
  function Ranked(rs: seq<Option<Recipe>>, h: map<string, nat>): seq<Option<Recipe>> {
    if AllPresent(rs) then Lift(SortByWeight(Weighted(rs, h))) else rs
  }

  /** The ranking has as many entries as the input. Without a missing entry
      it holds a weighted copy of every input recipe, each carrying its own
      weight, as a permutation of the weighted copies, ordered by
      non-increasing weight, stable on ties. With a missing entry the input
      comes back unchanged. */
  lemma RankedSpec(rs: seq<Option<Recipe>>, h: map<string, nat>)
    ensures |Ranked(rs, h)| == |rs|
    ensures !AllPresent(rs) ==> Ranked(rs, h) == rs
    ensures AllPresent(rs) ==> AllPresent(Ranked(rs, h))
    ensures AllPresent(rs) ==>
      var out := Values(Ranked(rs, h));
      && multiset(out) == multiset(Weighted(rs, h))
      && SortedByWeight(out)
      && (forall w :: OfWeight(out, w) == OfWeight(Weighted(rs, h), w))
      && (forall k :: 0 <= k < |out| ==> Key(out[k]) == RecipeWeight(out[k], h))
  {
    if AllPresent(rs) {
      var ws := Weighted(rs, h);
      SortByWeightSpec(ws);
      var sorted := SortByWeight(ws);
      assert |multiset(sorted)| == |multiset(ws)|;
      assert Values(Lift(sorted)) == sorted;
      forall k | 0 <= k < |sorted|
        ensures Key(sorted[k]) == RecipeWeight(sorted[k], h)
      {
        assert sorted[k] in multiset(ws);
        var i :| 0 <= i < |ws| && ws[i] == sorted[k];
      }
    }
  }

  /** The ranking after the history `h` has been read. */
  method RankRecipes(recipes: seq<Option<Recipe>>, h: map<string, nat>) returns (ranked: seq<Option<Recipe>>)
    ensures ranked == Ranked(recipes, h)
  {
    var weighted: seq<Recipe> := [];
    var i := 0;
    while i < |recipes|
      invariant 0 <= i <= |recipes|
      invariant AllPresent(recipes[..i])
      invariant weighted == Weighted(recipes[..i], h)
    {
      match recipes[i] {
        case None =>
          return recipes;
        case Some(r) =>
          var weight := ComputeWeight(r, h);
          weighted := weighted + [r.(weight := Some(weight))];
      }
      i := i + 1;
    }
    assert recipes[..|recipes|] == recipes;
    var a := new Recipe[|weighted|](k requires 0 <= k < |weighted| => weighted[k]);
    assert a[..] == weighted;
    SortInPlace(a);
    ranked := Lift(a[..]);
  }

  /** `sortRecipesByHistory(recipes)`: read the history (which never fails
      outright: a failing read yields `{}`), then rank. The store is only
      read. */
  method SortRecipesByHistory(store: PreferenceStore, recipes: seq<Option<Recipe>>, getFails: bool)
    returns (ranked: seq<Option<Recipe>>)
    ensures ranked == Ranked(recipes, if getFails then map[] else store.History())
  {
    var history := store.GetHistoryKeywords(getFails);
    ranked := RankRecipes(recipes, history);
  }

  /** Two recipes tied on weight stay in input order behind a heavier one. */
  lemma RankingTieExample()
    ensures
      var first := Recipe("first", Absent, Absent, Items(["a"]), "db", None);
      var second := Recipe("second", Absent, Absent, Items(["a"]), "db", None);
      var third := Recipe("third", Absent, Absent, Items(["b"]), "llm", None);
      var h := map["a" := 1, "b" := 5];
      Ranked([Some(first), Some(second), Some(third)], h)
        == [Some(third.(weight := Some(5))), Some(first.(weight := Some(1))), Some(second.(weight := Some(1)))]
  {
    var first := Recipe("first", Absent, Absent, Items(["a"]), "db", None);
    var second := Recipe("second", Absent, Absent, Items(["a"]), "db", None);
    var third := Recipe("third", Absent, Absent, Items(["b"]), "llm", None);
    var h := map["a" := 1, "b" := 5];
    var rs := [Some(first), Some(second), Some(third)];
    var f1, s1, t5 := first.(weight := Some(1)), second.(weight := Some(1)), third.(weight := Some(5));
    assert Weighted(rs, h) == [f1, s1, t5];
    assert SortByWeight([f1]) == [f1];
    assert SortByWeight([f1, s1]) == [f1, s1];
    assert [f1, s1, t5][..2] == [f1, s1];
    assert InsertByWeight([f1], t5) == [t5, f1];
    assert InsertByWeight([f1, s1], t5) == [t5, f1, s1];
  }

  /** Weights add up the history counts: `tomato` 3 and `basil` 1 give a
      recipe with both keywords weight 4, and it ranks above one with `basil` only. */
  lemma RankingWeightExample()
    ensures
      var a := Recipe("A", Absent, Absent, Items(["tomato", "basil"]), "db", None);
      var b := Recipe("B", Absent, Absent, Items(["basil"]), "db", None);
      var h := map["tomato" := 3, "basil" := 1];
      Ranked([Some(a), Some(b)], h) == [Some(a.(weight := Some(4))), Some(b.(weight := Some(1)))]
  {
    var a := Recipe("A", Absent, Absent, Items(["tomato", "basil"]), "db", None);
    var b := Recipe("B", Absent, Absent, Items(["basil"]), "db", None);
    var h := map["tomato" := 3, "basil" := 1];
    assert ["tomato", "basil"][..1] == ["tomato"];
    assert Weight(["tomato", "basil"], h) == 4;
    var a4, b1 := a.(weight := Some(4)), b.(weight := Some(1));
    assert Weighted([Some(a), Some(b)], h) == [a4, b1];
    assert [a4, b1][..1] == [a4];
    assert SortByWeight([a4]) == [a4];
    assert InsertByWeight([a4], b1) == [a4, b1];
  }
}
