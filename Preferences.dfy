/** The durable preference history (`saveKeywordsToHistory`,
    `getHistoryKeywords`, `clearHistory` in Components/PreferenceManager.js):
    a map from keyword to count kept, as JSON, in one AsyncStorage item
    under the key `"userPreferences"`. The item is modelled as the one
    field of a class; whether a storage call fails is a parameter. */
module Preferences {

  /** The AsyncStorage key the history lives under. */
  const StorageKey: string := "userPreferences"

  /** `history[keyword] || 0`. */
  function Count(h: map<string, nat>, k: string): nat {
    if k in h then h[k] else 0
  }

  /** `history[keyword] = (history[keyword] || 0) + 1`. */
  function Bump(h: map<string, nat>, k: string): map<string, nat> {
    h[k := Count(h, k) + 1]
  }

  /** The `forEach` over the saved keywords: one increment per occurrence. */
  function Increment(h: map<string, nat>, keywords: seq<string>): map<string, nat>
    decreases |keywords|
  {
    if keywords == [] then h
    else Bump(Increment(h, keywords[..|keywords| - 1]), keywords[|keywords| - 1])
  }

  /** Each count grows by the number of times its keyword occurs in the
      input, repeats included; a key the input does not mention keeps its count. */
  lemma {:induction false} IncrementCounts(h: map<string, nat>, keywords: seq<string>, k: string)
    ensures Count(Increment(h, keywords), k) == Count(h, k) + multiset(keywords)[k]
    decreases |keywords|
  {
    if keywords != [] {
      var init := keywords[..|keywords| - 1];
      IncrementCounts(h, init, k);
      assert keywords == init + [keywords[|keywords| - 1]];
    }
  }

  /** No key is removed, the input's keywords are added, and an entry the
      input does not mention is left exactly as it was. */
  lemma {:induction false} IncrementKeys(h: map<string, nat>, keywords: seq<string>)
    ensures Increment(h, keywords).Keys == h.Keys + set k | k in keywords
    ensures forall k :: k in h && k !in keywords ==> Increment(h, keywords)[k] == h[k]
    decreases |keywords|
  {
    if keywords != [] {
      var init := keywords[..|keywords| - 1];
      IncrementKeys(h, init);
      assert keywords == init + [keywords[|keywords| - 1]];
    }
  }

  /** After a save every saved keyword is in the history with a count of at least one. */
  lemma SavedKeywordsPresent(h: map<string, nat>, keywords: seq<string>)
    ensures forall k :: k in keywords ==> k in Increment(h, keywords) && Increment(h, keywords)[k] >= 1
  {
    IncrementKeys(h, keywords);
    forall k | k in keywords
      ensures Increment(h, keywords)[k] >= 1
    {
      IncrementCounts(h, keywords, k);
    }
  }

  /** What the storage item holds: nothing, a history that `JSON.parse`
      reads back, or text that `JSON.parse` rejects. */
  datatype Slot = NoItem | Saved(history: map<string, nat>) | Unreadable

  /** The one AsyncStorage item, under `StorageKey`, that every call of
      `saveKeywordsToHistory`, `getHistoryKeywords` and `clearHistory` names. */
  class PreferenceStore {
    /** The AsyncStorage item under `StorageKey`. */
    var slot: Slot

    constructor (initial: Slot)
      ensures slot == initial
    {
      slot := initial;
    }

    /** The history a successful read yields: `storedHistory ? JSON.parse(storedHistory) : {}`,
        with a parse error turned into `{}` as the `catch` of `getHistoryKeywords` does. */
    function History(): map<string, nat>
      reads this
    {
      match slot
      case Saved(h) => h
      case _ => map[]
    }

    /** `saveKeywordsToHistory(keywords)`: read the history, add one per
        occurrence, write it back. A failing `getItem`, an unparsable item
        or a failing `setItem` lands in the `catch`, and the item keeps its
        old value: the only write is the final one. */
    method SaveKeywordsToHistory(keywords: seq<string>, getFails: bool, setFails: bool)
      modifies this
      ensures getFails || setFails || old(slot).Unreadable? ==> slot == old(slot)
      ensures !(getFails || setFails || old(slot).Unreadable?) ==>
        slot == Saved(Increment(old(History()), keywords))
    {
      if getFails {
        return;
      }
      var history: map<string, nat>;
      match slot {
        case Unreadable =>
          return;
        case NoItem =>
          history := map[];
        case Saved(h) =>
          history := h;
      }
      var i := 0;
      while i < |keywords|
        invariant 0 <= i <= |keywords|
        invariant history == Increment(History(), keywords[..i])
      {
        var k := keywords[i];
        assert keywords[..i + 1][..i] == keywords[..i];
        history := history[k := (if k in history then history[k] else 0) + 1];
        i := i + 1;
      }
      assert keywords[..|keywords|] == keywords;
      if setFails {
        return;
      }
      slot := Saved(history);
    }

    /** `getHistoryKeywords()`: the stored history, or `{}` when nothing is
        stored, when the item cannot be parsed, or when `getItem` fails. The
        third `ensures` follows from the first two and `History()`; it spells
        out the empty and unparsable cases. */
    method GetHistoryKeywords(getFails: bool) returns (history: map<string, nat>)
      ensures getFails ==> history == map[]
      ensures !getFails ==> history == History()
      ensures !slot.Saved? ==> history == map[]
    {
      if getFails {
        return map[];
      }
      match slot {
        case Saved(h) =>
          history := h;
        case _ =>
          history := map[];
      }
    }

    /** `clearHistory()`: remove the item; a failing `removeItem` leaves it. */
    method ClearHistory(removeFails: bool)
      modifies this
      ensures slot == if removeFails then old(slot) else NoItem
    {
      if !removeFails {
        slot := NoItem;
      }
    }
  }

  /** After a successful clear, reads yield `{}` however many times they
      are made, and the next successful save starts from an empty history. */
  method ClearThenUse(store: PreferenceStore, keywords: seq<string>, getFails: bool)
    returns (first: map<string, nat>, second: map<string, nat>, after: map<string, nat>)
    modifies store
    ensures first == map[] && second == map[]
    ensures after == Increment(map[], keywords)
  {
    store.ClearHistory(false);
    first := store.GetHistoryKeywords(getFails);
    second := store.GetHistoryKeywords(false);
    store.SaveKeywordsToHistory(keywords, false, false);
    after := store.GetHistoryKeywords(false);
  }

  /** Saving `tomato, tomato, basil` adds two to the count of `tomato` and one to that of `basil`. */
  lemma SaveExample(h: map<string, nat>)
    ensures Count(Increment(h, ["tomato", "tomato", "basil"]), "tomato") == Count(h, "tomato") + 2
    ensures Count(Increment(h, ["tomato", "tomato", "basil"]), "basil") == Count(h, "basil") + 1
  {
    IncrementCounts(h, ["tomato", "tomato", "basil"], "tomato");
    IncrementCounts(h, ["tomato", "tomato", "basil"], "basil");
  }
}
