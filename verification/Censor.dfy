/** The fuzzy chat censor of src/utils/censor.js: pruned, memoised and proved to give the verdicts of
    comparing every word with every banned word. */
module Censor {
  import opened Options
  import opened EditDistance

  /** A row of the banned-word table; the word may be null. */
  datatype BannedWord = BannedWord(word: Option<string>)

  /** A list of banned words. The caches are keyed by the list object, not by its contents. */
  class WordList {
    const rows: seq<BannedWord>

    constructor (rows: seq<BannedWord>)
      ensures this.rows == rows
    {
      this.rows := rows;
    }
  }

  function WordOf(row: BannedWord): string {
    match row.word
    case None => ""
    case Some(w) => w
  }

  // ----- The reference: similarity by edit distance, against every banned word -----

  function Longer(s1: string, s2: string): string {
    if |s1| > |s2| then s1 else s2
  }

  function Shorter(s1: string, s2: string): string {
    if |s1| > |s2| then s2 else s1
  }

  /** The share of the longer text that survives a cheapest edit script. */
  function Similarity(s1: string, s2: string): real {
    var n := |Longer(s1, s2)|;
    if n == 0 then 1.0
    else Share(n - Distance(Lower(Longer(s1, s2)), Lower(Shorter(s1, s2))), n)
  }

  /** Which share k characters are of n. */
  function Share(k: int, n: nat): real
    requires n > 0
  {
    k as real / n as real
  }

  ghost predicate Matches(part: string, rows: seq<BannedWord>, threshold: real) {
    exists i :: 0 <= i < |rows| && Similarity(part, WordOf(rows[i])) >= threshold
  }

  predicate IsWordChar(c: char) {
    'a' <= c <= 'z' || 'A' <= c <= 'Z' || '0' <= c <= '9' || c == '_'
  }

  /** Letters, digits and Devanagari: the characters of a text that can be judged. */
  predicate IsTokenChar(c: char) {
    'a' <= c <= 'z' || 'A' <= c <= 'Z' || '0' <= c <= '9' || '\U{0900}' <= c <= '\U{097F}'
  }

  predicate IsToken(part: string) {
    part != "" && forall i :: 0 <= i < |part| ==> IsTokenChar(part[i])
  }

  const SAFE_WORDS: set<string> :=
    {"shut", "beach", "sheet", "came", "duck", "puck", "push", "dock", "much", "such", "rich"}

  ghost predicate Banned(part: string, rows: seq<BannedWord>, threshold: real) {
    IsToken(part) && Lower(part) !in SAFE_WORDS && Matches(part, rows, threshold)
  }

  function Stars(n: nat): (r: string)
    ensures |r| == n && forall i :: 0 <= i < n ==> r[i] == '*'
  {
    seq(n, _ => '*')
  }

  ghost function Verdicts(rows: seq<BannedWord>, threshold: real): string -> bool {
    part => Banned(part, rows, threshold)
  }

  ghost function CensorPart(part: string, verdict: string -> bool): (r: string)
    ensures |r| == |part|
  {
    if verdict(part) then Stars(|part|) else part
  }

  /** Where the run that starts the text ends, having seen that its first `q` characters belong to it. */
  function RunFrom(text: string, q: nat): (n: nat)
    requires 1 <= q <= |text|
    requires forall i :: 0 <= i < q ==> IsWordChar(text[i]) == IsWordChar(text[0])
    ensures q <= n <= |text|
    ensures forall i :: 0 <= i < n ==> IsWordChar(text[i]) == IsWordChar(text[0])
    ensures n < |text| ==> IsWordChar(text[n]) != IsWordChar(text[0])
    decreases |text| - q
  {
    if q < |text| && IsWordChar(text[q]) == IsWordChar(text[0]) then RunFrom(text, q + 1) else q
  }

  /** Length of the longest prefix without a word boundary inside. */
  function RunLength(text: string): nat
    requires text != ""
  {
    RunFrom(text, 1)
  }

  function Parts(text: string): seq<string> {
    if text == "" then [] else [text[..RunLength(text)]] + Parts(text[RunLength(text)..])
  }

  function Join(parts: seq<string>): string {
    if parts == [] then "" else parts[0] + Join(parts[1..])
  }

  /** The text with every part that the verdict bans starred out. */
  ghost function CensoredBy(text: string, verdict: string -> bool): (r: string)
    ensures |r| == |text|
  {
    if text == "" then ""
    else var n := RunLength(text); CensorPart(text[..n], verdict) + CensoredBy(text[n..], verdict)
  }

  /** What comparing every judgeable word with every banned word makes of a text. */
  ghost function Censored(text: string, rows: seq<BannedWord>, threshold: real): string {
    CensoredBy(text, Verdicts(rows, threshold))
  }

  // ----- Facts about similarity -----

  lemma SimilarityBounds(s1: string, s2: string)
    requires Longer(s1, s2) != ""
    ensures 0.0 <= Similarity(s1, s2) <= |Shorter(s1, s2)| as real / |Longer(s1, s2)| as real
  {
    var l, s := Longer(s1, s2), Shorter(s1, s2);
    var d := Distance(Lower(l), Lower(s));
    AtLeastLengthDifference(Lower(l), Lower(s));
    AtMostLonger(Lower(l), Lower(s));
    DivideMonotone((|l| - d) as real, |s| as real, |l| as real);
    DivideMonotone(0.0, (|l| - d) as real, |l| as real);
  }

  lemma SimilarityAtMostOne(s1: string, s2: string)
    ensures 0.0 <= Similarity(s1, s2) <= 1.0
  {
    var l, s := Longer(s1, s2), Shorter(s1, s2);
    AtMostLonger(Lower(l), Lower(s));
    if l != "" {
      Fraction(|l| - Distance(Lower(l), Lower(s)), |l|);
    }
  }

  lemma Fraction(k: nat, n: nat)
    requires k <= n && n > 0
    ensures 0.0 <= k as real / n as real <= 1.0
  {
  }

  lemma {:induction false} AtMostLonger(a: string, b: string)
    ensures Distance(a, b) <= if |a| > |b| then |a| else |b|
    decreases |a| + |b|
  {
    if a != "" && b != "" {
      AtMostLonger(Init(a), Init(b));
    }
  }

  lemma DivideMonotone(x: real, y: real, n: real)
    requires x <= y && n > 0.0
    ensures x / n <= y / n
  {
    assert y / n - x / n == (y - x) / n;
  }

  function MaxLength(s1: string, s2: string): (n: nat)
    ensures n >= |s1| && n >= |s2| && (n == |s1| || n == |s2|)
  {
    if |s1| > |s2| then |s1| else |s2|
  }

  lemma ShareLeft(d: int, n: nat)
    requires n > 0
    ensures Share(n - d, n) == 1.0 - Share(d, n)
  {
    assert n as real / n as real - d as real / n as real == (n as real - d as real) / n as real;
    assert n as real / n as real == 1.0;
  }

  lemma ShareMonotone(d: int, e: int, n: nat)
    requires n > 0 && d <= e
    ensures Share(d, n) <= Share(e, n)
  {
    DivideMonotone(d as real, e as real, n as real);
  }

  lemma SimilarityIsShare(s1: string, s2: string)
    requires MaxLength(s1, s2) > 0
    ensures Similarity(s1, s2) == Share(MaxLength(s1, s2) - Distance(Lower(s1), Lower(s2)), MaxLength(s1, s2))
  {
    EitherOrder(s1, s2);
  }

  /** What a cheapest script of edits from a to b, of a length d that is the only one, leaves of n characters is
      the share r of them. */
  ghost predicate LeavesShare(a: string, b: string, n: nat, r: real)
    requires n > 0
  {
    exists d :: IsEditDistance(a, b, d) && IsShare(r, n - d, n)
  }

  predicate IsShare(r: real, k: int, n: nat)
    requires n > 0
  {
    r == k as real / n as real
  }

  lemma DistanceLeavesShare(a: string, b: string, n: nat, r: real)
    requires n > 0 && IsShare(r, n - Distance(a, b), n)
    ensures LeavesShare(a, b, n, r)
  {
    DistanceIsMinimal(a, b);
    var d := Distance(a, b);
    assert IsEditDistance(a, b, d) && IsShare(r, n - d, n);
  }

  /** At most the share 1 - threshold of the longer text has to be edited to turn one text into the other,
      whatever their case; two empty texts are alike as far as a threshold of 1. */
  ghost predicate CloseEnough(part: string, word: string, threshold: real) {
    var n := MaxLength(part, word);
    if n == 0 then threshold <= 1.0
    else
      exists script ::
        Transforms(script, Lower(part), Lower(word)) && |script| as real / n as real <= 1.0 - threshold
  }

  lemma CloseEnoughIff(part: string, word: string, threshold: real)
    requires MaxLength(part, word) > 0
    ensures CloseEnough(part, word, threshold) <==>
            Share(Distance(Lower(part), Lower(word)), MaxLength(part, word)) <= 1.0 - threshold
  {
    var n := MaxLength(part, word);
    var best := UpperBound(Lower(part), Lower(word));
    assert |best| as real / n as real == Share(|best|, n);
    if CloseEnough(part, word, threshold) {
      var script :| Transforms(script, Lower(part), Lower(word)) && |script| as real / n as real <= 1.0 - threshold;
      LowerBound(script, Lower(part), Lower(word));
      ShareMonotone(Distance(Lower(part), Lower(word)), |script|, n);
    }
  }

  lemma SimilarIffCloseEnough(part: string, word: string, threshold: real)
    ensures Similarity(part, word) >= threshold <==> CloseEnough(part, word, threshold)
  {
    if MaxLength(part, word) > 0 {
      SimilarityIsShare(part, word);
      ShareLeft(Distance(Lower(part), Lower(word)), MaxLength(part, word));
      CloseEnoughIff(part, word, threshold);
    }
  }

  ghost predicate CloseToOne(part: string, words: seq<string>, threshold: real) {
    exists i :: 0 <= i < |words| && CloseEnough(part, words[i], threshold)
  }

  /** Similarity ignores the order of its arguments and the case of its texts. */
  lemma SimilaritySymmetric(s1: string, s2: string)
    ensures Similarity(s1, s2) == Similarity(s2, s1)
  {
    Symmetric(Lower(s1), Lower(s2));
  }

  lemma SimilarityIgnoresCase(s1: string, s2: string)
    ensures Similarity(Lower(s1), Lower(s2)) == Similarity(s1, s2)
    ensures Similarity(Lower(s1), s2) == Similarity(s1, s2)
  {
    LowerTwice(s1);
    LowerTwice(s2);
    assert |Longer(Lower(s1), Lower(s2))| == |Longer(Lower(s1), s2)| == |Longer(s1, s2)|;
    assert Lower(Longer(Lower(s1), Lower(s2))) == Lower(Longer(Lower(s1), s2)) == Lower(Longer(s1, s2));
    assert Lower(Shorter(Lower(s1), Lower(s2))) == Lower(Shorter(Lower(s1), s2)) == Lower(Shorter(s1, s2));
  }

  /** The share of the longer text's characters that a cheapest script of edits leaves. */
  method GetSimilarity(s1: string, s2: string) returns (r: real)
    ensures r == Similarity(s1, s2)
  {
    var longer := if |s1| > |s2| then s1 else s2;
    var shorter := if |s1| > |s2| then s2 else s1;
    if |longer| == 0 {
      return 1.0;
    }
    var d := GetLevenshteinDistance(longer, shorter);
    assert longer == Longer(s1, s2) && shorter == Shorter(s1, s2);
    return Share(|longer| - d, |longer|);
  }

  /** The result is what a cheapest script of edits leaves of the longer text; 1 for two empty texts. */
  lemma SimilarityByEdits(s1: string, s2: string)
    ensures var n := MaxLength(s1, s2);
            if n == 0 then Similarity(s1, s2) == 1.0 else LeavesShare(Lower(s1), Lower(s2), n, Similarity(s1, s2))
  {
    var n := MaxLength(s1, s2);
    if n > 0 {
      SimilarityIsShare(s1, s2);
      WhatIsLeft(Lower(s1), Lower(s2), n, Distance(Lower(s1), Lower(s2)), Similarity(s1, s2));
    }
  }

  lemma EitherOrder(s1: string, s2: string)
    ensures Distance(Lower(Longer(s1, s2)), Lower(Shorter(s1, s2))) == Distance(Lower(s1), Lower(s2))
  {
    Symmetric(Lower(s1), Lower(s2));
  }

  lemma WhatIsLeft(a: string, b: string, n: nat, d: nat, r: real)
    requires n > 0 && d == Distance(a, b) && r == Share(n - d, n)
    ensures LeavesShare(a, b, n, r)
  {
    DistanceLeavesShare(a, b, n, r);
  }

  /** The pruned comparison: exactly the verdict of comparing with every word. */
  method IsBannedWord(lowerPart: string, words: seq<string>, threshold: real) returns (banned: bool)
    ensures banned <==> CloseToOne(lowerPart, words, threshold)
  {
    for i := 0 to |words|
      invariant forall k :: 0 <= k < i ==> !CloseEnough(lowerPart, words[k], threshold)
    {
      var w := words[i];
      if |lowerPart| == 0 && |w| == 0 {
        banned := 1.0 >= threshold;
        if !banned {
          NoneAboveOne(lowerPart, words, threshold);
        }
        return;
      }
      banned := Reaches(lowerPart, w, threshold);
      if banned {
        return;
      }
    }
    return false;
  }

  /** The comparison of one pair, skipped when its lengths alone rule it out. */
  method Reaches(lowerPart: string, w: string, threshold: real) returns (close: bool)
    requires MaxLength(lowerPart, w) > 0
    ensures close <==> CloseEnough(lowerPart, w, threshold)
  {
    var longer := if |lowerPart| > |w| then |lowerPart| else |w|;
    var shorter := if |lowerPart| > |w| then |w| else |lowerPart|;
    if shorter as real / longer as real < threshold {
      PrunedIsFar(lowerPart, w, threshold);
      return false;
    }
    var similarity := GetSimilarity(lowerPart, w);
    SimilarIffCloseEnough(lowerPart, w, threshold);
    close := similarity >= threshold;
  }

  lemma PrunedIsFar(part: string, word: string, threshold: real)
    requires MaxLength(part, word) > 0
    requires |Shorter(part, word)| as real / |Longer(part, word)| as real < threshold
    ensures !CloseEnough(part, word, threshold)
  {
    SimilarityBounds(part, word);
    SimilarIffCloseEnough(part, word, threshold);
  }

  lemma NoneAboveOne(part: string, words: seq<string>, threshold: real)
    requires threshold > 1.0
    ensures !CloseToOne(part, words, threshold)
  {
    forall i | 0 <= i < |words| ensures !CloseEnough(part, words[i], threshold) {
      SimilarityAtMostOne(part, words[i]);
      SimilarIffCloseEnough(part, words[i], threshold);
    }
  }

  // ----- The censor object: prepared lists and verdict memos -----

  const VERDICT_CACHE_MAX := 5000

  datatype Prepared = Prepared(words: seq<string>, verdicts: map<real, map<string, bool>>)

  function LowerWords(rows: seq<BannedWord>): seq<string> {
    seq(|rows|, i requires 0 <= i < |rows| => Lower(WordOf(rows[i])))
  }

  /** Every memoised verdict is the verdict of the reference. */
  ghost predicate MemoCorrect(memo: map<string, bool>, rows: seq<BannedWord>, threshold: real) {
    && |memo| <= 5000
    && forall part :: part in memo ==> memo[part] == Matches(part, rows, threshold)
  }

  ghost predicate PreparedCorrect(p: Prepared, rows: seq<BannedWord>) {
    && p.words == LowerWords(rows)
    && forall t :: t in p.verdicts ==> MemoCorrect(p.verdicts[t], rows, t)
  }

  lemma LowerMatches(part: string, rows: seq<BannedWord>, threshold: real)
    ensures Matches(Lower(part), rows, threshold) == Matches(part, rows, threshold)
    ensures Matches(part, rows, threshold) <==> CloseToOne(Lower(part), LowerWords(rows), threshold)
  {
    forall i | 0 <= i < |rows|
      ensures Similarity(Lower(part), LowerWords(rows)[i]) == Similarity(part, WordOf(rows[i]))
      ensures Similarity(Lower(part), WordOf(rows[i])) == Similarity(part, WordOf(rows[i]))
    {
      SimilarityIgnoresCase(part, WordOf(rows[i]));
    }
    forall i | 0 <= i < |rows|
      ensures CloseEnough(Lower(part), LowerWords(rows)[i], threshold) <==>
              Similarity(part, WordOf(rows[i])) >= threshold
    {
      SimilarIffCloseEnough(Lower(part), LowerWords(rows)[i], threshold);
    }
    if Matches(part, rows, threshold) {
      var i :| 0 <= i < |rows| && Similarity(part, WordOf(rows[i])) >= threshold;
      assert CloseEnough(Lower(part), LowerWords(rows)[i], threshold);
      assert Similarity(Lower(part), WordOf(rows[i])) >= threshold;
    }
  }

  /** Adding a correct verdict to a memo that has room for it. */
  lemma Remember(memo: map<string, bool>, rows: seq<BannedWord>, threshold: real, part: string, banned: bool)
    requires MemoCorrect(memo, rows, threshold) && |memo| < VERDICT_CACHE_MAX
    requires banned == Matches(part, rows, threshold)
    ensures MemoCorrect(memo[part := banned], rows, threshold)
  {
    assert memo[part := banned].Keys == memo.Keys + {part};
    assert |memo.Keys + {part}| <= |memo.Keys| + 1;
    assert |memo[part := banned]| == |memo[part := banned].Keys|;
  }

  lemma ReplaceMemo(p: Prepared, rows: seq<BannedWord>, threshold: real, memo: map<string, bool>)
    requires PreparedCorrect(p, rows) && MemoCorrect(memo, rows, threshold)
    ensures PreparedCorrect(p.(verdicts := p.verdicts[threshold := memo]), rows)
  {
  }

  datatype Call = Call(text: string, list: WordList, threshold: real)

  class FuzzyCensor {
    var prepared: map<WordList, Prepared>

    ghost predicate Valid()
      reads this
    {
      forall list :: list in prepared ==> PreparedCorrect(prepared[list], list.rows)
    }

    constructor ()
      ensures Valid() && prepared == map[]
    {
      prepared := map[];
    }

    /** `prepareList`: lower-case the words once per list object, one memo per threshold. */
    method PrepareList(list: WordList, threshold: real)
      requires Valid()
      modifies this
      ensures Valid()
      ensures list in prepared && threshold in prepared[list].verdicts
      // What was prepared and remembered before is kept.
      ensures forall l :: l in old(prepared) ==> l in prepared && prepared[l].words == old(prepared)[l].words
      ensures forall l, t :: l in old(prepared) && t in old(prepared)[l].verdicts ==>
                t in prepared[l].verdicts && prepared[l].verdicts[t] == old(prepared)[l].verdicts[t]
    {
      if list !in prepared {
        prepared := prepared[list := Prepared(LowerWords(list.rows), map[])];
      }
      var p := prepared[list];
      if threshold !in p.verdicts {
        prepared := prepared[list := p.(verdicts := p.verdicts[threshold := map[]])];
      }
    }

    /** The verdict on a lower-cased part: from the memo, or computed and remembered. */
    method Verdict(lowerPart: string, list: WordList, threshold: real) returns (banned: bool)
      requires Valid() && list in prepared && threshold in prepared[list].verdicts
      requires Lower(lowerPart) == lowerPart
      modifies this
      ensures Valid() && list in prepared && threshold in prepared[list].verdicts
      ensures banned == Matches(lowerPart, list.rows, threshold)
      ensures lowerPart in prepared[list].verdicts[threshold]
      ensures lowerPart in old(prepared)[list].verdicts[threshold] ==> prepared == old(prepared)
    {
      var p := prepared[list];
      var memo := p.verdicts[threshold];
      if lowerPart in memo {
        return memo[lowerPart];
      }
      banned := IsBannedWord(lowerPart, p.words, threshold);
      assert banned == Matches(lowerPart, list.rows, threshold) by {
        LowerMatches(lowerPart, list.rows, threshold);
      }
      if |memo| >= VERDICT_CACHE_MAX {
        memo := map[];
      }
      Remember(memo, list.rows, threshold, lowerPart, banned);
      memo := memo[lowerPart := banned];
      ReplaceMemo(p, list.rows, threshold, memo);
      prepared := prepared[list := p.(verdicts := p.verdicts[threshold := memo])];
    }

    /** One part of the text: kept, or starred out. */
    method CensorOnePart(part: string, list: WordList, threshold: real) returns (replacement: string)
      requires Valid() && list in prepared && threshold in prepared[list].verdicts
      modifies this
      ensures Valid() && list in prepared && threshold in prepared[list].verdicts
      ensures replacement == CensorPart(part, Verdicts(list.rows, threshold))
      ensures StarredIffClose(part, replacement, list.rows, threshold)
    {
      PartIsStarredIffClose(part, list.rows, threshold);
      if !IsToken(part) {
        return part;
      }
      var lowerPart := Lower(part);
      if lowerPart in SAFE_WORDS {
        return part;
      }
      LowerTwice(part);
      var banned := Verdict(lowerPart, list, threshold);
      assert banned == Matches(part, list.rows, threshold) by {
        LowerMatches(part, list.rows, threshold);
      }
      return if banned then Stars(|part|) else part;
    }

    /** The mapped and joined parts. */
    method CensorAllParts(parts: seq<string>, list: WordList, threshold: real) returns (out: string)
      requires Valid() && list in prepared && threshold in prepared[list].verdicts
      modifies this
      ensures Valid()
      ensures out == CensoredParts(parts, Verdicts(list.rows, threshold))
    {
      ghost var verdict := Verdicts(list.rows, threshold);
      out := "";
      for i := 0 to |parts|
        invariant Valid() && list in prepared && threshold in prepared[list].verdicts
        invariant out == CensoredParts(parts[..i], verdict)
      {
        var replacement := CensorOnePart(parts[i], list, threshold);
        CensoredUpTo(parts, i, verdict);
        out := out + replacement;
      }
      assert parts[..|parts|] == parts;
    }

    /** `censorTextWithFuzzyMatch`. */
    method CensorText(text: string, list: WordList, threshold: real) returns (out: string)
      requires Valid()
      modifies this
      ensures Valid()
      ensures out == Censored(text, list.rows, threshold)
    {
      if text == "" {
        return text;
      }
      if |list.rows| == 0 {
        NothingBanned(text, Verdicts(list.rows, threshold));
        return text;
      }
      PrepareList(list, threshold);
      var parts := SplitAtBoundaries(text);
      CensoredByParts(text, Verdicts(list.rows, threshold));
      out := CensorAllParts(parts, list, threshold);
    }

    /** Whatever was censored before, with whichever lists and thresholds, every call answers
        like the reference. */
    method CensorAll(calls: seq<Call>) returns (outs: seq<string>)
      requires Valid()
      modifies this
      ensures Valid()
      ensures |outs| == |calls|
      ensures forall i :: 0 <= i < |calls| ==>
                outs[i] == Censored(calls[i].text, calls[i].list.rows, calls[i].threshold)
    {
      outs := [];
      for i := 0 to |calls|
        invariant Valid() && |outs| == i
        invariant forall k :: 0 <= k < i ==>
                    outs[k] == Censored(calls[k].text, calls[k].list.rows, calls[k].threshold)
      {
        var out := CensorText(calls[i].text, calls[i].list, calls[i].threshold);
        outs := outs + [out];
      }
    }
  }

  ghost function CensoredParts(parts: seq<string>, verdict: string -> bool): string {
    if parts == [] then "" else CensorPart(parts[0], verdict) + CensoredParts(parts[1..], verdict)
  }

  lemma {:induction false} CensoredSnoc(parts: seq<string>, part: string, verdict: string -> bool)
    ensures CensoredParts(parts + [part], verdict) == CensoredParts(parts, verdict) + CensorPart(part, verdict)
  {
    if parts == [] {
      assert [] + [part] == [part];
      assert CensoredParts([part][1..], verdict) == "";
    } else {
      CensoredSnoc(parts[1..], part, verdict);
      assert (parts + [part])[0] == parts[0] && (parts + [part])[1..] == parts[1..] + [part];
      Associative(CensorPart(parts[0], verdict), CensoredParts(parts[1..], verdict), CensorPart(part, verdict));
    }
  }

  lemma CensoredUpTo(parts: seq<string>, i: nat, verdict: string -> bool)
    requires i < |parts|
    ensures CensoredParts(parts[..i + 1], verdict) == CensoredParts(parts[..i], verdict) + CensorPart(parts[i], verdict)
  {
    CensoredSnoc(parts[..i], parts[i], verdict);
    assert parts[..i] + [parts[i]] == parts[..i + 1];
  }

  lemma {:induction false} CensoredByParts(text: string, verdict: string -> bool)
    ensures CensoredBy(text, verdict) == CensoredParts(Parts(text), verdict)
  {
    if text != "" {
      CensoredByParts(text[RunLength(text)..], verdict);
      assert Parts(text)[1..] == Parts(text[RunLength(text)..]);
    }
  }

  lemma {:induction false} NothingBannedInParts(parts: seq<string>, verdict: string -> bool)
    requires forall part :: !verdict(part)
    ensures CensoredParts(parts, verdict) == Join(parts)
  {
    if parts != [] {
      NothingBannedInParts(parts[1..], verdict);
    }
  }

  lemma NothingBanned(text: string, verdict: string -> bool)
    requires forall part :: !verdict(part)
    ensures CensoredBy(text, verdict) == text
  {
    CensoredByParts(text, verdict);
    NothingBannedInParts(Parts(text), verdict);
    PartsAreTheText(text);
  }

  /** Splitting at every word boundary; the empty captures of the boundaries add nothing when joined. */
  method SplitAtBoundaries(text: string) returns (parts: seq<string>)
    ensures parts == Parts(text)
  {
    parts := [];
    var p := 0;
    while p < |text|
      invariant 0 <= p <= |text|
      invariant parts + Parts(text[p..]) == Parts(text)
    {
      var q := EndOfRun(text, p);
      NextPart(text, p, q, parts);
      parts := parts + [text[p..q]];
      p := q;
    }
    NoneLeft(text, p, parts);
  }

  lemma NoneLeft(text: string, p: nat, parts: seq<string>)
    requires p == |text|
    ensures Parts(text[p..]) == [] && parts + [] == parts
  {
    assert text[p..] == "";
  }

  /** The end of the run that starts at p. */
  method EndOfRun(text: string, p: nat) returns (q: nat)
    requires p < |text|
    ensures p < q <= |text|
    ensures forall i :: p <= i < q ==> IsWordChar(text[i]) == IsWordChar(text[p])
    ensures q < |text| ==> IsWordChar(text[q]) != IsWordChar(text[p])
  {
    q := p + 1;
    while q < |text| && IsWordChar(text[q]) == IsWordChar(text[q - 1])
      invariant p < q <= |text|
      invariant forall i :: p <= i < q ==> IsWordChar(text[i]) == IsWordChar(text[p])
    {
      q := q + 1;
    }
  }

  lemma NextPart(text: string, p: nat, q: nat, parts: seq<string>)
    requires p < q <= |text|
    requires forall i :: p <= i < q ==> IsWordChar(text[i]) == IsWordChar(text[p])
    requires q < |text| ==> IsWordChar(text[q]) != IsWordChar(text[p])
    ensures parts + Parts(text[p..]) == (parts + [text[p..q]]) + Parts(text[q..])
  {
    RunLengthIs(text[p..], q - p);
    assert text[p..][..q - p] == text[p..q] && text[p..][q - p..] == text[q..];
    assert Parts(text[p..]) == [text[p..q]] + Parts(text[q..]);
  }

  lemma RunLengthIs(text: string, n: nat)
    requires 1 <= n <= |text|
    requires forall i :: 0 <= i < n ==> IsWordChar(text[i]) == IsWordChar(text[0])
    requires n < |text| ==> IsWordChar(text[n]) != IsWordChar(text[0])
    ensures RunLength(text) == n
  {
    assert !(RunLength(text) < n);
  }

  lemma JoinCons(part: string, parts: seq<string>)
    ensures Join([part] + parts) == part + Join(parts)
  {
    assert ([part] + parts)[1..] == parts;
  }

  lemma Halves(text: string, n: nat)
    requires n <= |text|
    ensures text[..n] + text[n..] == text
  {
  }

  lemma CutCons(part: string, parts: seq<string>)
    requires part != "" && CutAtBoundaries(parts)
    requires parts != [] ==> IsWordChar(Last(part)) != IsWordChar(parts[0][0])
    ensures CutAtBoundaries([part] + parts)
  {
  }

  /** The parts are the text, cut exactly where word and non-word characters meet. */
  lemma {:induction false} PartsAreTheText(text: string)
    ensures Join(Parts(text)) == text
    ensures CutAtBoundaries(Parts(text))
    ensures text == "" <==> Parts(text) == []
    ensures text != "" ==> Parts(text)[0] != "" && Parts(text)[0][0] == text[0]
  {
    if text != "" {
      var n := RunLength(text);
      var first, rest := text[..n], text[n..];
      PartsAreTheText(rest);
      JoinCons(first, Parts(rest));
      Halves(text, n);
      assert Last(first) == text[n - 1];
      CutCons(first, Parts(rest));
    }
  }

  predicate CutAtBoundaries(parts: seq<string>) {
    && (forall k :: 0 <= k < |parts| ==> parts[k] != "")
    && (forall k :: 0 <= k < |parts| - 1 ==> IsWordChar(Last(parts[k])) != IsWordChar(parts[k + 1][0]))
  }

  // ----- What is starred -----

  /** A digit, an ASCII letter, or a character of the Devanagari block. */
  predicate Judgeable(c: char) {
    48 <= c as int <= 57 || 65 <= c as int <= 90 || 97 <= c as int <= 122 || 0x900 <= c as int <= 0x97F
  }

  lemma CharacterClasses(c: char)
    ensures IsTokenChar(c) <==> Judgeable(c)
    ensures IsWordChar(c) <==> c == '_' || (Judgeable(c) && c as int < 128)
  {
    assert '0' as int == 48 && '9' as int == 57 && 'A' as int == 65 && 'Z' as int == 90;
    assert 'a' as int == 97 && 'z' as int == 122;
  }

  const NEVER_STARRED := {"shut", "beach", "sheet", "came", "duck", "puck", "push", "dock", "much", "such", "rich"}

  /** One of the rows has a word, the empty one if it is null, that is close enough. */
  ghost predicate HasClose(part: string, rows: seq<BannedWord>, threshold: real) {
    exists i :: 0 <= i < |rows| && CloseEnough(part, if rows[i].word.Some? then rows[i].word.value else "", threshold)
  }

  /** A part is starred out, character by character, exactly when it is made of letters, digits and
      Devanagari, is not one of the safe words in any case, and is close enough to a banned word. */
  ghost predicate StarredIffClose(part: string, replacement: string, rows: seq<BannedWord>, threshold: real) {
    if part != "" && (forall i :: 0 <= i < |part| ==> Judgeable(part[i])) && Lower(part) !in NEVER_STARRED
       && HasClose(part, rows, threshold)
    then |replacement| == |part| && forall i :: 0 <= i < |replacement| ==> replacement[i] == '*'
    else replacement == part
  }

  lemma TokensAreJudgeable(part: string)
    ensures IsToken(part) <==> part != "" && forall i :: 0 <= i < |part| ==> Judgeable(part[i])
  {
    forall i | 0 <= i < |part| ensures IsTokenChar(part[i]) <==> Judgeable(part[i]) {
      CharacterClasses(part[i]);
    }
  }

  lemma MatchesIffClose(part: string, rows: seq<BannedWord>, threshold: real)
    ensures Matches(part, rows, threshold) <==> HasClose(part, rows, threshold)
  {
    if Matches(part, rows, threshold) {
      var i :| 0 <= i < |rows| && Similarity(part, WordOf(rows[i])) >= threshold;
      SimilarIffCloseEnough(part, WordOf(rows[i]), threshold);
    }
    if HasClose(part, rows, threshold) {
      var i :| 0 <= i < |rows|
               && CloseEnough(part, if rows[i].word.Some? then rows[i].word.value else "", threshold);
      SimilarIffCloseEnough(part, WordOf(rows[i]), threshold);
    }
  }

  lemma PartIsStarredIffClose(part: string, rows: seq<BannedWord>, threshold: real)
    ensures StarredIffClose(part, CensorPart(part, Verdicts(rows, threshold)), rows, threshold)
  {
    TokensAreJudgeable(part);
    MatchesIffClose(part, rows, threshold);
    assert SAFE_WORDS == NEVER_STARRED;
  }

  /** So the censored text is the text with exactly these parts starred out. */
  lemma CensoredPieceByPiece(text: string, rows: seq<BannedWord>, threshold: real) returns (outs: seq<string>)
    ensures |outs| == |Parts(text)| && Join(outs) == Censored(text, rows, threshold)
    ensures forall k :: 0 <= k < |outs| ==> StarredIffClose(Parts(text)[k], outs[k], rows, threshold)
  {
    var parts, verdict := Parts(text), Verdicts(rows, threshold);
    outs := seq(|parts|, k requires 0 <= k < |parts| => CensorPart(parts[k], verdict));
    CensoredByParts(text, verdict);
    JoinedPieces(parts, outs, verdict);
    forall k | 0 <= k < |outs| ensures StarredIffClose(parts[k], outs[k], rows, threshold) {
      PartIsStarredIffClose(parts[k], rows, threshold);
    }
  }

  lemma {:induction false} JoinedPieces(parts: seq<string>, outs: seq<string>, verdict: string -> bool)
    requires |outs| == |parts| && forall k :: 0 <= k < |parts| ==> outs[k] == CensorPart(parts[k], verdict)
    ensures Join(outs) == CensoredParts(parts, verdict)
  {
    if parts != [] {
      JoinedPieces(parts[1..], outs[1..], verdict);
    }
  }

  // ----- Censoring twice -----

  predicate NoWordChars(s: string) {
    forall i :: 0 <= i < |s| ==> !IsWordChar(s[i])
  }

  predicate StartsWithWordChar(s: string) {
    s != "" && IsWordChar(s[0])
  }

  lemma StarIsNoToken(s: string)
    requires '*' in s
    ensures !IsToken(s)
  {
    var i :| 0 <= i < |s| && s[i] == '*';
    assert !IsTokenChar(s[i]);
  }

  /** A run of one kind before text of the other kind is judged on its own. */
  lemma RunThenRest(run: string, rest: string, verdict: string -> bool)
    requires run != ""
    requires forall i :: 0 <= i < |run| ==> IsWordChar(run[i]) == IsWordChar(run[0])
    requires rest != "" ==> IsWordChar(rest[0]) != IsWordChar(run[0])
    ensures CensoredBy(run + rest, verdict) == CensorPart(run, verdict) + CensoredBy(rest, verdict)
  {
    RunLengthIs(run + rest, |run|);
    assert (run + rest)[..|run|] == run && (run + rest)[|run|..] == rest;
  }

  ghost predicate OnlyTokens(verdict: string -> bool) {
    forall part :: verdict(part) ==> IsToken(part)
  }

  ghost predicate Settled(prefix: string, verdict: string -> bool) {
    NoWordChars(prefix) && !verdict(prefix)
  }

  lemma StarsSettle(prefix: string, run: string, verdict: string -> bool)
    requires OnlyTokens(verdict) && Settled(prefix, verdict) && NoWordChars(run) && '*' in prefix + run
    ensures Settled(prefix + run, verdict) && '*' in prefix + run
  {
    StarIsNoToken(prefix + run);
  }

  /** The first run of a text, what becomes of it, and the rest. */
  lemma FirstRun(prefix: string, text: string, verdict: string -> bool)
    requires text != ""
    ensures var n := RunLength(text); var run, rest := text[..n], text[n..];
            && run != "" && |rest| < |text|
            && (forall i :: 0 <= i < n ==> IsWordChar(run[i]) == IsWordChar(text[0]))
            && (rest != "" ==> IsWordChar(rest[0]) != IsWordChar(text[0]))
            && prefix + CensoredBy(text, verdict) == (prefix + CensorPart(run, verdict)) + CensoredBy(rest, verdict)
  {
    var n := RunLength(text);
    Associative(prefix, CensorPart(text[..n], verdict), CensoredBy(text[n..], verdict));
  }

  lemma Associative(a: string, b: string, c: string)
    ensures a + (b + c) == (a + b) + c
  {
  }

  /** Censoring already censored text behind an already settled, wordless prefix. Starred runs merge
      with the non-word runs around them; the merged run holds a star, so it is left alone. */
  lemma {:induction false} CensoredAfter(prefix: string, text: string, verdict: string -> bool)
    requires OnlyTokens(verdict) && Settled(prefix, verdict)
    requires '*' in prefix || prefix == "" || text == "" || StartsWithWordChar(text)
    ensures CensoredBy(prefix + CensoredBy(text, verdict), verdict) == prefix + CensoredBy(text, verdict)
    decreases |text|
  {
    if text == "" {
      assert prefix + "" == prefix;
      if prefix != "" {
        RunThenRest(prefix, "", verdict);
      }
    } else {
      var n := RunLength(text);
      var run, rest := text[..n], text[n..];
      FirstRun(prefix, text, verdict);
      if IsWordChar(text[0]) && !verdict(run) {
        assert !verdict("");
        CensoredAfter("", rest, verdict);
        FirstStaysWordless(rest, verdict);
        WordBetween(prefix, run, CensoredBy(rest, verdict), verdict);
      } else {
        AbsorbRun(prefix, run, verdict);
        CensoredAfter(prefix + CensorPart(run, verdict), rest, verdict);
      }
    }
  }

  lemma AbsorbRun(prefix: string, run: string, verdict: string -> bool)
    requires OnlyTokens(verdict) && Settled(prefix, verdict)
    requires verdict(run) || (NoWordChars(run) && (prefix == "" || '*' in prefix))
    requires run != ""
    ensures Settled(prefix + CensorPart(run, verdict), verdict)
    ensures verdict(run) ==> '*' in prefix + CensorPart(run, verdict)
    ensures '*' in prefix ==> '*' in prefix + CensorPart(run, verdict)
  {
    if verdict(run) {
      assert (prefix + Stars(|run|))[|prefix|] == '*';
      StarsSettle(prefix, Stars(|run|), verdict);
    } else if prefix == "" {
      assert prefix + run == run;
    } else {
      StarsSettle(prefix, run, verdict);
    }
  }

  /** A surviving word run stands apart from the wordless text on both its sides. */
  lemma WordBetween(prefix: string, run: string, rest: string, verdict: string -> bool)
    requires Settled(prefix, verdict) && !verdict(run)
    requires run != "" && forall i :: 0 <= i < |run| ==> IsWordChar(run[i])
    requires rest != "" ==> !IsWordChar(rest[0])
    requires CensoredBy(rest, verdict) == rest
    ensures CensoredBy((prefix + run) + rest, verdict) == (prefix + run) + rest
  {
    RunThenRest(run, rest, verdict);
    assert (prefix + run) + rest == prefix + (run + rest);
    if prefix == "" {
      assert prefix + (run + rest) == run + rest;
    } else {
      RunThenRest(prefix, run + rest, verdict);
    }
  }

  lemma FirstStaysWordless(text: string, verdict: string -> bool)
    requires text != "" ==> !IsWordChar(text[0])
    ensures text != "" ==> !IsWordChar(CensoredBy(text, verdict)[0])
    ensures "" + CensoredBy(text, verdict) == CensoredBy(text, verdict)
  {
    if text != "" {
      var n := RunLength(text);
      assert CensoredBy(text, verdict)[0] == CensorPart(text[..n], verdict)[0];
    }
  }

  /** A second pass over censored text changes nothing, and no pass changes a length. */
  lemma CensoringIsIdempotent(text: string, rows: seq<BannedWord>, threshold: real)
    ensures |Censored(text, rows, threshold)| == |text|
    ensures Censored(Censored(text, rows, threshold), rows, threshold) == Censored(text, rows, threshold)
  {
    CensoredAfter("", text, Verdicts(rows, threshold));
    assert "" + Censored(text, rows, threshold) == Censored(text, rows, threshold);
  }
}
