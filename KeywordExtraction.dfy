/** Keyword extraction (`generateKeywords`, `generateKeywordsFromRecipes`
    in Components/PreferenceManager.js). The JavaScript `Set` the source
    fills is insertion-ordered, so it is modelled as a duplicate-free
    sequence that grows at its end. */
module KeywordExtraction {
  import opened Text
  import opened Recipes

  /** The fixed stopword list of `generateKeywords`. */
  const Stopwords: seq<string> := [
    "and", "or", "with", "of", "the", "a", "an", "to", "in", "for",
    "on", "at", "by", "from", "as", "but", "is", "are", "was", "were"]

  predicate IsStopword(w: string) {
    w in Stopwords
  }

  predicate Distinct(s: seq<string>) {
    forall i, j :: 0 <= i < j < |s| ==> s[i] != s[j]
  }

  // ---------------------------------------------------------------------
  // The insertion-ordered set

  /** `set.add(w)` on an insertion-ordered set. */
  function Add(seen: seq<string>, w: string): seq<string> {
    if w in seen then seen else seen + [w]
  }

  /** Adding the words `ws` one after the other. */
  function AddAll(seen: seq<string>, ws: seq<string>): seq<string>
    decreases |ws|
  {
    if ws == [] then seen else Add(AddAll(seen, ws[..|ws| - 1]), ws[|ws| - 1])
  }

  /** Position of the first occurrence of `x` in `ws`. */
  function IndexOf(ws: seq<string>, x: string): (i: nat)
    requires x in ws
    ensures i < |ws| && ws[i] == x
    ensures forall k :: 0 <= k < i ==> ws[k] != x
  {
    if ws[0] == x then 0 else 1 + IndexOf(ws[1..], x)
  }

  /** Every element of `s` occurs in `ws`, and `s` lists them in the order
      of their first occurrences in `ws`. */
  predicate InFirstSeenOrder(s: seq<string>, ws: seq<string>) {
    && (forall i :: 0 <= i < |s| ==> s[i] in ws)
    && (forall i, j :: 0 <= i < j < |s| ==> IndexOf(ws, s[i]) < IndexOf(ws, s[j]))
  }

  lemma {:induction false} AddAllMembers(seen: seq<string>, ws: seq<string>, x: string)
    ensures x in AddAll(seen, ws) <==> x in seen || x in ws
    decreases |ws|
  {
    if ws != [] {
      var init := ws[..|ws| - 1];
      AddAllMembers(seen, init, x);
      assert ws == init + [ws[|ws| - 1]];
    }
  }

  lemma {:induction false} AddAllDistinct(seen: seq<string>, ws: seq<string>)
    requires Distinct(seen)
    ensures Distinct(AddAll(seen, ws))
    decreases |ws|
  {
    if ws != [] {
      AddAllDistinct(seen, ws[..|ws| - 1]);
    }
  }

  lemma {:induction false} AddAllAppend(seen: seq<string>, a: seq<string>, b: seq<string>)
    ensures AddAll(seen, a + b) == AddAll(AddAll(seen, a), b)
    decreases |b|
  {
    if b == [] {
      assert a + b == a;
    } else {
      var init := b[..|b| - 1];
      AddAllAppend(seen, a, init);
      assert (a + b)[..|a + b| - 1] == a + init;
    }
  }

  lemma IndexOfExtend(ws: seq<string>, w: string, x: string)
    requires x in ws
    ensures IndexOf(ws + [w], x) == IndexOf(ws, x)
  {
    var i := IndexOf(ws, x);
    assert (ws + [w])[i] == x;
  }

  lemma IndexOfLast(ws: seq<string>, w: string)
    requires w !in ws
    ensures IndexOf(ws + [w], w) == |ws|
  {
    assert (ws + [w])[|ws|] == w;
  }

  /** The deduplicated words keep the order of their first occurrences. */
  lemma {:induction false} AddAllOrder(ws: seq<string>)
    ensures InFirstSeenOrder(AddAll([], ws), ws)
    decreases |ws|
  {
    if ws != [] {
      var init, w := ws[..|ws| - 1], ws[|ws| - 1];
      assert ws == init + [w];
      var r := AddAll([], init);
      AddAllOrder(init);
      forall x | x in init
        ensures IndexOf(ws, x) == IndexOf(init, x)
      {
        IndexOfExtend(init, w, x);
      }
      if w !in r {
        AddAllMembers([], init, w);
        IndexOfLast(init, w);
        assert AddAll([], ws) == r + [w];
      }
    }
  }

  // ---------------------------------------------------------------------
  // The stopword filter

  /** `array.filter((word) => !stopwords.includes(word))`. */
  function RemoveStopwords(s: seq<string>): seq<string>
    decreases |s|
  {
    if s == [] then []
    else
      var kept := RemoveStopwords(s[..|s| - 1]);
      if IsStopword(s[|s| - 1]) then kept else kept + [s[|s| - 1]]
  }

  lemma {:induction false} RemoveStopwordsMembers(s: seq<string>, x: string)
    ensures x in RemoveStopwords(s) <==> x in s && !IsStopword(x)
    decreases |s|
  {
    if s != [] {
      var init := s[..|s| - 1];
      RemoveStopwordsMembers(init, x);
      assert s == init + [s[|s| - 1]];
    }
  }

  /** Appending a new element that comes later in `ws` keeps both properties. */
  lemma AppendLater(kept: seq<string>, x: string, ws: seq<string>)
    requires Distinct(kept) && InFirstSeenOrder(kept, ws) && x in ws
    requires forall i :: 0 <= i < |kept| ==> kept[i] != x && IndexOf(ws, kept[i]) < IndexOf(ws, x)
    ensures Distinct(kept + [x]) && InFirstSeenOrder(kept + [x], ws)
  {
    var r := kept + [x];
    assert forall i :: 0 <= i < |kept| ==> r[i] == kept[i];
  }

  /** An element of the filtered prefix sits before the last element of `s`. */
  lemma KeptIsEarlier(s: seq<string>, y: string, ws: seq<string>)
    requires s != [] && Distinct(s) && InFirstSeenOrder(s, ws)
    requires y in RemoveStopwords(s[..|s| - 1])
    ensures y in ws
    ensures y != s[|s| - 1] && IndexOf(ws, y) < IndexOf(ws, s[|s| - 1])
  {
    var init := s[..|s| - 1];
    RemoveStopwordsMembers(init, y);
    var k :| 0 <= k < |init| && init[k] == y;
    assert s[k] == y;
  }

  /** Filtering keeps distinctness and the first-seen order. */
  lemma {:induction false} RemoveStopwordsKeeps(s: seq<string>, ws: seq<string>)
    requires Distinct(s) && InFirstSeenOrder(s, ws)
    ensures Distinct(RemoveStopwords(s)) && InFirstSeenOrder(RemoveStopwords(s), ws)
    decreases |s|
  {
    if s != [] {
      var init, x := s[..|s| - 1], s[|s| - 1];
      var kept := RemoveStopwords(init);
      assert Distinct(init) && InFirstSeenOrder(init, ws);
      RemoveStopwordsKeeps(init, ws);
      if !IsStopword(x) {
        forall i | 0 <= i < |kept|
          ensures kept[i] != x && IndexOf(ws, kept[i]) < IndexOf(ws, x)
        {
          KeptIsEarlier(s, kept[i], ws);
        }
        AppendLater(kept, x, ws);
      }
    }
  }

  /** A list of stopwords filters down to nothing. */
  lemma OnlyStopwordsRemoved(s: seq<string>)
    requires forall i :: 0 <= i < |s| ==> IsStopword(s[i])
    ensures RemoveStopwords(s) == []
  {
    if RemoveStopwords(s) != [] {
      RemoveStopwordsMembers(s, RemoveStopwords(s)[0]);
    }
  }

  // ---------------------------------------------------------------------
  // Words of a recipe

  /** `text.split(/\s+/)` with every piece lower-cased. */
  function Words(text: string): seq<string> {
    var parts := Split(text);
    seq(|parts|, i requires 0 <= i < |parts| => Lower(parts[i]))
  }

  /** The words of each string of an array, one string after the other. */
  function ListWords(items: seq<string>): seq<string>
    decreases |items|
  {
    if items == [] then [] else ListWords(items[..|items| - 1]) + Words(items[|items| - 1])
  }

  /** What `generateKeywords` reads of one field: arrays only. */
  function FieldWords(f: TextList): seq<string> {
    match f
    case Items(items) => ListWords(items)
    case _ => []
  }

  /** What `generateKeywords` reads of the name: nothing when it is empty. */
  function NameWords(name: string): seq<string> {
    if name != "" then Words(name) else []
  }

  /** Every word the source adds to its set, in the order it adds them. */
  function RecipeWords(r: Recipe): seq<string> {
    NameWords(r.name) + FieldWords(r.ingredients) + FieldWords(r.instructions)
  }

  /** The specification of `generateKeywords`. */
  function KeywordsOf(r: Recipe): seq<string> {
    RemoveStopwords(AddAll([], RecipeWords(r)))
  }

  /** `w` is the lower-cased form of a whitespace-separated piece of `text`. */
  predicate IsWordOf(text: string, w: string) {
    var parts := Split(text);
    exists i :: 0 <= i < |parts| && Lower(parts[i]) == w
  }

  /** `w` comes from the name or from an array-valued ingredients or
      instructions field. */
  predicate IsWordOfRecipe(r: Recipe, w: string) {
    || (r.name != "" && IsWordOf(r.name, w))
    || (r.ingredients.Items? && exists k :: 0 <= k < |r.ingredients.items| && IsWordOf(r.ingredients.items[k], w))
    || (r.instructions.Items? && exists k :: 0 <= k < |r.instructions.items| && IsWordOf(r.instructions.items[k], w))
  }

  lemma {:induction false} ListWordsMembers(items: seq<string>, w: string)
    ensures w in ListWords(items) <==> exists k :: 0 <= k < |items| && IsWordOf(items[k], w)
    decreases |items|
  {
    if items != [] {
      var init := items[..|items| - 1];
      ListWordsMembers(init, w);
      if IsWordOf(items[|items| - 1], w) {
        var parts := Split(items[|items| - 1]);
        var i :| 0 <= i < |parts| && Lower(parts[i]) == w;
        assert Words(items[|items| - 1])[i] == w;
      }
      if exists k :: 0 <= k < |items| && IsWordOf(items[k], w) {
        var k :| 0 <= k < |items| && IsWordOf(items[k], w);
        if k < |items| - 1 {
          assert init[k] == items[k];
        }
      }
    }
  }

  /** The words of a recipe are exactly the lower-cased pieces of its name,
      its array ingredients and its array instructions. */
  lemma RecipeWordsMembers(r: Recipe, w: string)
    ensures w in RecipeWords(r) <==> IsWordOfRecipe(r, w)
  {
    if r.name != "" && IsWordOf(r.name, w) {
      var parts := Split(r.name);
      var i :| 0 <= i < |parts| && Lower(parts[i]) == w;
      assert Words(r.name)[i] == w;
    }
    if r.ingredients.Items? {
      ListWordsMembers(r.ingredients.items, w);
    }
    if r.instructions.Items? {
      ListWordsMembers(r.instructions.items, w);
    }
  }

  /** A word is lower-case and free of whitespace. */
  lemma WordShape(text: string, w: string)
    requires IsWordOf(text, w)
    ensures IsLowerCase(w) && NoSpace(w)
  {
    var parts := Split(text);
    var i :| 0 <= i < |parts| && Lower(parts[i]) == w;
    LowerProperties(parts[i]);
  }

  // ---------------------------------------------------------------------
  // generateKeywords

  /** The inner `forEach`: add the lower-cased pieces of `text`. */
  method AddWords(seen: seq<string>, text: string) returns (result: seq<string>)
    ensures result == AddAll(seen, Words(text))
  {
    var parts := Split(text);
    ghost var words := Words(text);
    result := seen;
    var i := 0;
    while i < |parts|
      invariant 0 <= i <= |parts|
      invariant result == AddAll(seen, words[..i])
    {
      var w := Lower(parts[i]);
      assert words[..i + 1][..i] == words[..i];
      if w !in result {
        result := result + [w];
      }
      i := i + 1;
    }
    assert words[..|parts|] == words;
  }

  /** The outer `forEach` over an array-valued field; anything else adds nothing. */
  method AddField(seen: seq<string>, f: TextList) returns (result: seq<string>)
    ensures result == AddAll(seen, FieldWords(f))
  {
    result := seen;
    if f.Items? {
      var items := f.items;
      var i := 0;
      while i < |items|
        invariant 0 <= i <= |items|
        invariant result == AddAll(seen, ListWords(items[..i]))
      {
        assert items[..i + 1][..i] == items[..i];
        AddAllAppend(seen, ListWords(items[..i]), Words(items[i]));
        result := AddWords(result, items[i]);
        i := i + 1;
      }
      assert items[..|items|] == items;
    }
  }

  /** `generateKeywords(recipe)`. */
  method GenerateKeywords(r: Recipe) returns (keywords: seq<string>)
    ensures keywords == KeywordsOf(r)
  {
    var seen: seq<string> := [];
    if r.name != "" {
      seen := AddWords(seen, r.name);
    }
    var nameWords := NameWords(r.name);
    AddAllAppend([], nameWords, FieldWords(r.ingredients));
    seen := AddField(seen, r.ingredients);
    AddAllAppend([], nameWords + FieldWords(r.ingredients), FieldWords(r.instructions));
    seen := AddField(seen, r.instructions);
    keywords := RemoveStopwords(seen);
  }

  /** The keywords have no repeats, contain no stopword, are lower-case and
      space-free, and are exactly the non-stopword words of the recipe,
      listed in the order the source first meets them. */
  lemma KeywordsOfSpec(r: Recipe)
    ensures Distinct(KeywordsOf(r))
    ensures InFirstSeenOrder(KeywordsOf(r), RecipeWords(r))
    ensures forall w :: w in KeywordsOf(r) <==> IsWordOfRecipe(r, w) && !IsStopword(w)
    ensures forall i :: 0 <= i < |KeywordsOf(r)| ==>
      var w := KeywordsOf(r)[i]; !IsStopword(w) && IsLowerCase(w) && NoSpace(w)
  {
    var words := RecipeWords(r);
    var seen := AddAll([], words);
    AddAllDistinct([], words);
    AddAllOrder(words);
    RemoveStopwordsKeeps(seen, words);
    forall w
      ensures w in KeywordsOf(r) <==> IsWordOfRecipe(r, w) && !IsStopword(w)
    {
      RemoveStopwordsMembers(seen, w);
      AddAllMembers([], words, w);
      RecipeWordsMembers(r, w);
    }
    forall i | 0 <= i < |KeywordsOf(r)|
      ensures var w := KeywordsOf(r)[i]; !IsStopword(w) && IsLowerCase(w) && NoSpace(w)
    {
      var w := KeywordsOf(r)[i];
      RemoveStopwordsMembers(seen, w);
      AddAllMembers([], words, w);
      RecipeWordsMembers(r, w);
      if r.name != "" && IsWordOf(r.name, w) {
        WordShape(r.name, w);
      } else if r.ingredients.Items? && exists k :: 0 <= k < |r.ingredients.items| && IsWordOf(r.ingredients.items[k], w) {
        var k :| 0 <= k < |r.ingredients.items| && IsWordOf(r.ingredients.items[k], w);
        WordShape(r.ingredients.items[k], w);
      } else {
        var k :| 0 <= k < |r.instructions.items| && IsWordOf(r.instructions.items[k], w);
        WordShape(r.instructions.items[k], w);
      }
    }
  }

  /** A recipe with no name and no array-valued ingredients or
      instructions has no keywords. */
  lemma NoTextNoKeywords(r: Recipe)
    requires r.name == "" && !r.ingredients.Items? && !r.instructions.Items?
    ensures KeywordsOf(r) == []
  {
    assert RecipeWords(r) == [];
  }

  /** A recipe whose every word is a stopword has no keywords. */
  lemma OnlyStopwordsNoKeywords(r: Recipe)
    requires forall w :: IsWordOfRecipe(r, w) ==> IsStopword(w)
    ensures KeywordsOf(r) == []
  {
    var words := RecipeWords(r);
    var seen := AddAll([], words);
    forall i | 0 <= i < |seen|
      ensures IsStopword(seen[i])
    {
      AddAllMembers([], words, seen[i]);
      RecipeWordsMembers(r, seen[i]);
    }
    OnlyStopwordsRemoved(seen);
  }

  /** Whitespace at either end of the name leaves an empty piece, which is
      not a stopword and so is kept as a keyword. */
  lemma EdgeSpaceKeepsEmptyWord(r: Recipe)
    requires r.name != "" && (IsSpace(r.name[0]) || IsSpace(r.name[|r.name| - 1]))
    ensures "" in KeywordsOf(r)
  {
    var parts := Split(r.name);
    assert !NoSpace(r.name);
    var k := if IsSpace(r.name[0]) then 0 else |parts| - 1;
    assert parts[k] == "";
    assert Lower(parts[k]) == "";
    assert IsWordOfRecipe(r, "");
    KeywordsOfSpec(r);
  }

  // ---------------------------------------------------------------------
  // generateKeywordsFromRecipes

  /** `recipes.flatMap((recipe) => generateKeywords(recipe))`. */
  function AllKeywords(rs: seq<Recipe>): seq<string>
    decreases |rs|
  {
    if rs == [] then [] else AllKeywords(rs[..|rs| - 1]) + KeywordsOf(rs[|rs| - 1])
  }

  /** `[...new Set(allKeywords)]`: the batch keywords, once each. */
  function KeywordsFromRecipes(rs: seq<Recipe>): seq<string> {
    AddAll([], AllKeywords(rs))
  }

  lemma {:induction false} AllKeywordsMembers(rs: seq<Recipe>, w: string)
    ensures w in AllKeywords(rs) <==> exists k :: 0 <= k < |rs| && w in KeywordsOf(rs[k])
    decreases |rs|
  {
    if rs != [] {
      var init := rs[..|rs| - 1];
      AllKeywordsMembers(init, w);
      if exists k :: 0 <= k < |rs| && w in KeywordsOf(rs[k]) {
        var k :| 0 <= k < |rs| && w in KeywordsOf(rs[k]);
        if k < |rs| - 1 {
          assert init[k] == rs[k];
        }
      }
    }
  }

  /** The batch keywords have no repeats and are the union of the
      keywords of each recipe, in first-seen order. */
  lemma KeywordsFromRecipesSpec(rs: seq<Recipe>)
    ensures Distinct(KeywordsFromRecipes(rs))
    ensures InFirstSeenOrder(KeywordsFromRecipes(rs), AllKeywords(rs))
    ensures forall w :: w in KeywordsFromRecipes(rs) <==>
      exists k :: 0 <= k < |rs| && w in KeywordsOf(rs[k])
  {
    AddAllDistinct([], AllKeywords(rs));
    AddAllOrder(AllKeywords(rs));
    forall w
      ensures w in KeywordsFromRecipes(rs) <==> exists k :: 0 <= k < |rs| && w in KeywordsOf(rs[k])
    {
      AddAllMembers([], AllKeywords(rs), w);
      AllKeywordsMembers(rs, w);
    }
  }
}
