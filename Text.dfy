/** Character-level helpers behind keyword extraction: the ASCII part of
    JavaScript's `\s` class, `String.prototype.toLowerCase`, and
    `String.prototype.split(/\s+/)`. */
module Text {

  /** The ASCII characters matched by `\s`: space, tab, line feed,
      vertical tab, form feed and carriage return. */
  predicate IsSpace(c: char) {
    c == ' ' || c == '\t' || c == '\n' || c == '\U{0B}' || c == '\U{0C}' || c == '\r'
  }

  predicate IsUpper(c: char) {
    'A' <= c <= 'Z'
  }

  predicate NoSpace(w: string) {
    forall i :: 0 <= i < |w| ==> !IsSpace(w[i])
  }

  predicate AllSpace(w: string) {
    forall i :: 0 <= i < |w| ==> IsSpace(w[i])
  }

  /** A word in which `toLowerCase` has nothing left to change. */
  predicate IsLowerCase(w: string) {
    forall i :: 0 <= i < |w| ==> !IsUpper(w[i])
  }

  /** `toLowerCase` on one character (ASCII letters only). */
  function ToLower(c: char): (d: char)
    ensures !IsUpper(d)
    ensures IsSpace(d) <==> IsSpace(c)
    ensures !IsUpper(c) ==> d == c
  {
    if IsUpper(c) then (c as int - 'A' as int + 'a' as int) as char else c
  }

  /** `toLowerCase` on a word. */
  function Lower(w: string): (r: string)
    ensures |r| == |w|
    ensures forall i :: 0 <= i < |w| ==> r[i] == ToLower(w[i])
  {
    seq(|w|, i requires 0 <= i < |w| => ToLower(w[i]))
  }

  /** Lower-casing leaves a lower-case word, keeps a space-free word
      space-free, and a second lower-casing changes nothing. */
  lemma LowerProperties(w: string)
    ensures IsLowerCase(Lower(w))
    ensures NoSpace(w) ==> NoSpace(Lower(w))
    ensures Lower(Lower(w)) == Lower(w)
  {
  }

  /** Index of the first whitespace character of `s`; `|s|` when there is none. */
  function SpaceAt(s: string): (i: nat)
    ensures i <= |s|
    ensures forall k :: 0 <= k < i ==> !IsSpace(s[k])
    ensures i < |s| ==> IsSpace(s[i])
  {
    if s == [] || IsSpace(s[0]) then 0 else 1 + SpaceAt(s[1..])
  }

  /** End of the maximal whitespace run that starts at `i`. */
  function RunEnd(s: string, i: nat): (j: nat)
    requires i <= |s|
    ensures i <= j <= |s|
    ensures AllSpace(s[i..j])
    ensures j < |s| ==> !IsSpace(s[j])
    decreases |s| - i
  {
    if i < |s| && IsSpace(s[i]) then RunEnd(s, i + 1) else i
  }

  /** `s.split(/\s+/)`: the pieces between maximal runs of whitespace.
      A leading (trailing) run leaves an empty first (last) piece, and
      the empty string splits into one empty piece. */
  function Split(s: string): (parts: seq<string>)
    ensures |parts| >= 1
    ensures forall k :: 0 <= k < |parts| ==> NoSpace(parts[k])
    ensures forall k :: 0 < k < |parts| - 1 ==> parts[k] != ""
    ensures parts[0] == "" <==> (s == "" || IsSpace(s[0]))
    ensures |parts| > 1 ==> |s| > 0 && (parts[|parts| - 1] == "" <==> IsSpace(s[|s| - 1]))
    ensures |parts| == 1 <==> NoSpace(s)
    decreases |s|
  {
    var i := SpaceAt(s);
    if i == |s| then [s]
    else
      var j := RunEnd(s, i);
      [s[..i]] + Split(s[j..])
  }

  /** `s` with every whitespace character removed. */
  function Squeeze(s: string): (r: string)
    ensures |r| <= |s|
  {
    if s == [] then "" else (if IsSpace(s[0]) then "" else [s[0]]) + Squeeze(s[1..])
  }

  function Concat(parts: seq<string>): string {
    if parts == [] then "" else parts[0] + Concat(parts[1..])
  }

  lemma {:induction false} SqueezeAppend(a: string, b: string)
    ensures Squeeze(a + b) == Squeeze(a) + Squeeze(b)
  {
    if a != [] {
      assert (a + b)[1..] == a[1..] + b;
      SqueezeAppend(a[1..], b);
    } else {
      assert a + b == b;
    }
  }

  lemma {:induction false} SqueezeNoSpace(w: string)
    requires NoSpace(w)
    ensures Squeeze(w) == w
  {
    if w != [] {
      SqueezeNoSpace(w[1..]);
    }
  }

  lemma {:induction false} SqueezeAllSpace(w: string)
    requires AllSpace(w)
    ensures Squeeze(w) == ""
  {
    if w != [] {
      SqueezeAllSpace(w[1..]);
    }
  }

  /** Squeezing a text that starts with a space-free word and a whitespace run. */
  lemma {:induction false} SqueezeAtRun(s: string, i: nat, j: nat)
    requires i <= j <= |s|
    requires NoSpace(s[..i])
    requires AllSpace(s[i..j])
    ensures Squeeze(s) == s[..i] + Squeeze(s[j..])
  {
    var head, run, tail := s[..i], s[i..j], s[j..];
    assert s == (head + run) + tail;
    SqueezeAppend(head + run, tail);
    SqueezeAppend(head, run);
    SqueezeNoSpace(head);
    SqueezeAllSpace(run);
  }

  /** Splitting discards whitespace and nothing else: the pieces, put back
      together, are the text without its whitespace. */
  lemma {:induction false} SplitDropsOnlySpace(s: string)
    ensures Concat(Split(s)) == Squeeze(s)
    decreases |s|
  {
    var i := SpaceAt(s);
    if i == |s| {
      SqueezeNoSpace(s);
    } else {
      var j := RunEnd(s, i);
      var rest := Split(s[j..]);
      SplitDropsOnlySpace(s[j..]);
      assert Split(s) == [s[..i]] + rest;
      assert ([s[..i]] + rest)[1..] == rest;
      SqueezeAtRun(s, i, j);
    }
  }

  /** The whitespace runs that `split(/\s+/)` breaks at, in order: one
      between each pair of consecutive pieces. */
  function Gaps(s: string): (gaps: seq<string>)
    ensures forall k :: 0 <= k < |gaps| ==> gaps[k] != "" && AllSpace(gaps[k])
    decreases |s|
  {
    var i := SpaceAt(s);
    if i == |s| then []
    else
      var j := RunEnd(s, i);
      assert IsSpace(s[i]) && i < j;
      [s[i..j]] + Gaps(s[j..])
  }

  /** The pieces with a gap between each pair of neighbours. */
  function Interleave(parts: seq<string>, gaps: seq<string>): string
    requires |gaps| + 1 == |parts|
    decreases |gaps|
  {
    if gaps == [] then parts[0] else parts[0] + gaps[0] + Interleave(parts[1..], gaps[1..])
  }

  lemma InterleaveCons(a: string, g: string, parts: seq<string>, gaps: seq<string>)
    requires |gaps| + 1 == |parts|
    ensures Interleave([a] + parts, [g] + gaps) == a + g + Interleave(parts, gaps)
  {
    assert ([a] + parts)[1..] == parts && ([g] + gaps)[1..] == gaps;
  }

  /** One step of the split: the first piece, then the text after the
      first whitespace run. */
  lemma SplitUnfold(s: string, i: nat, j: nat)
    requires i == SpaceAt(s) < |s| && j == RunEnd(s, i)
    ensures i < j <= |s|
    ensures Split(s) == [s[..i]] + Split(s[j..])
  {
    assert IsSpace(s[i]);
  }

  /** One step of the gaps: the first whitespace run, then the gaps of the
      text after it. */
  lemma GapsUnfold(s: string, i: nat, j: nat)
    requires i == SpaceAt(s) < |s| && j == RunEnd(s, i)
    ensures Gaps(s) == [s[i..j]] + Gaps(s[j..])
    ensures s == s[..i] + s[i..j] + s[j..]
  {
    assert IsSpace(s[i]);
  }

  /** Putting the whitespace runs back between the pieces restores the
      text. With space-free pieces and non-empty all-space gaps, this fixes
      where every piece breaks. */
  lemma {:induction false} SplitRestoresSpace(s: string)
    ensures |Gaps(s)| + 1 == |Split(s)|
    ensures Interleave(Split(s), Gaps(s)) == s
    decreases |s|
  {
    var i := SpaceAt(s);
    if i < |s| {
      var j := RunEnd(s, i);
      SplitUnfold(s, i, j);
      GapsUnfold(s, i, j);
      var rest := s[j..];
      SplitRestoresSpace(rest);
      InterleaveCons(s[..i], s[i..j], Split(rest), Gaps(rest));
    }
  }
}
