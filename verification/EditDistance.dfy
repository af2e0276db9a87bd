/** The Levenshtein distance of src/utils/censor.js: an in-place one-row loop, proved against
    the length of the shortest script of single-character edits. */
module EditDistance {

  /** One single-character edit, at a position of the text it is applied to. */
  datatype Edit =
    | Insert(at: nat, c: char)
    | Delete(at: nat)
    | Substitute(at: nat, c: char)

  predicate Applicable(e: Edit, s: string) {
    if e.Insert? then e.at <= |s| else e.at < |s|
  }

  function Apply(e: Edit, s: string): string
    requires Applicable(e, s)
  {
    match e
    case Insert(at, c) => s[..at] + [c] + s[at..]
    case Delete(at) => s[..at] + s[at + 1..]
    case Substitute(at, c) => s[..at] + [c] + s[at + 1..]
  }

  /** The edits of `script`, applied one after the other, turn `a` into `b`. */
  predicate Transforms(script: seq<Edit>, a: string, b: string) {
    if script == [] then a == b
    else Applicable(script[0], a) && Transforms(script[1..], Apply(script[0], a), b)
  }

  /** `d` edits suffice to turn `a` into `b`, and fewer never do. */
  ghost predicate IsEditDistance(a: string, b: string, d: nat) {
    && (exists script :: |script| == d && Transforms(script, a, b))
    && (forall script :: Transforms(script, a, b) ==> d <= |script|)
  }

  function Init(s: string): string
    requires s != ""
  {
    s[..|s| - 1]
  }

  function Last(s: string): char
    requires s != ""
  {
    s[|s| - 1]
  }

  function Min(x: nat, y: nat): nat {
    if x < y then x else y
  }

  /** The recurrence the loop fills in, cell by cell. */
  function Distance(a: string, b: string): nat
    decreases |a| + |b|
  {
    if a == "" then |b|
    else if b == "" then |a|
    else if Last(a) == Last(b) then Distance(Init(a), Init(b))
    else 1 + Min(Min(Distance(Init(a), Init(b)), Distance(a, Init(b))), Distance(Init(a), b))
  }

  lemma {:induction false} Symmetric(a: string, b: string)
    ensures Distance(a, b) == Distance(b, a)
    decreases |a| + |b|
  {
    if a != "" && b != "" {
      Symmetric(Init(a), Init(b));
      Symmetric(a, Init(b));
      Symmetric(Init(a), b);
    }
  }

  /** The recurrence on texts written with their last character split off. */
  lemma Unfold(a: string, x: char, b: string, y: char)
    ensures Distance(a + [x], b + [y]) ==
            if x == y then Distance(a, b)
            else 1 + Min(Min(Distance(a, b), Distance(a + [x], b)), Distance(a, b + [y]))
  {
    assert Init(a + [x]) == a && Init(b + [y]) == b;
  }

  /** One more character changes the distance by at most one. */
  lemma {:induction false} Lipschitz(a: string, x: char, b: string)
    ensures Distance(a, b) <= Distance(a + [x], b) + 1
    ensures Distance(a + [x], b) <= Distance(a, b) + 1
    decreases |a| + |b|, 0
  {
    if b != "" {
      var c, z := Init(b), Last(b);
      assert b == c + [z];
      Unfold(a, x, c, z);
      LipschitzRight(a, c, z);
      if x != z {
        Lipschitz(a, x, c);
      }
    }
  }

  lemma {:induction false} LipschitzRight(a: string, b: string, y: char)
    ensures Distance(a, b) <= Distance(a, b + [y]) + 1
    ensures Distance(a, b + [y]) <= Distance(a, b) + 1
    decreases |a| + |b|, 1
  {
    Symmetric(a, b);
    Symmetric(a, b + [y]);
    if a == "" {
    } else {
      Lipschitz(b, y, a);
    }
  }

  /** `u` becomes `v` by one edit of its last character. */
  predicate EndEdit(u: string, v: string) {
    || (v != "" && u == Init(v))
    || (u != "" && v == Init(u))
    || (u != "" && v != "" && Init(u) == Init(v))
  }

  lemma {:induction false} EndEditStep(u: string, v: string, b: string)
    requires EndEdit(u, v)
    ensures Distance(u, b) <= Distance(v, b) + 1
    decreases |b|
  {
    if v != "" && u == Init(v) {
      assert v == u + [Last(v)];
      Lipschitz(u, Last(v), b);
    } else if u != "" && v == Init(u) {
      assert u == v + [Last(u)];
      Lipschitz(v, Last(u), b);
    } else if b != "" {
      var w, x, y, c, z := Init(u), Last(u), Last(v), Init(b), Last(b);
      assert u == w + [x] && v == w + [y] && b == c + [z];
      Unfold(w, x, c, z);
      Unfold(w, y, c, z);
      Lipschitz(w, x, b);
      LipschitzRight(u, c, z);
      EndEditStep(u, v, c);
    }
  }

  /** An edit in front of an unchanged tail `q` moves the distance by at most one. */
  lemma {:induction false} EditBeforeTail(u: string, v: string, q: string, b: string)
    requires EndEdit(u, v)
    ensures Distance(u + q, b) <= Distance(v + q, b) + 1
    decreases |q| + |b|
  {
    if q == "" {
      assert u + q == u && v + q == v;
      EndEditStep(u, v, b);
    } else if b == "" {
    } else {
      var r, y, c, z := Init(q), Last(q), Init(b), Last(b);
      assert u + q == (u + r) + [y] && v + q == (v + r) + [y] && b == c + [z];
      Unfold(u + r, y, c, z);
      Unfold(v + r, y, c, z);
      EditBeforeTail(u, v, r, c);
      EditBeforeTail(u, v, r, b);
      EditBeforeTail(u, v, q, c);
    }
  }

  lemma OneEdit(e: Edit, s: string, b: string)
    requires Applicable(e, s)
    ensures Distance(s, b) <= Distance(Apply(e, s), b) + 1
  {
    match e
    case Insert(at, c) =>
      var p, q := s[..at], s[at..];
      assert s == p + q && Init(p + [c]) == p;
      EditBeforeTail(p, p + [c], q, b);
    case Delete(at) =>
      var p, q := s[..at], s[at + 1..];
      assert s == (p + [s[at]]) + q && Init(p + [s[at]]) == p;
      EditBeforeTail(p + [s[at]], p, q, b);
    case Substitute(at, c) =>
      var p, q := s[..at], s[at + 1..];
      assert s == (p + [s[at]]) + q && Init(p + [s[at]]) == p == Init(p + [c]);
      EditBeforeTail(p + [s[at]], p + [c], q, b);
  }

  lemma {:induction false} SelfDistance(a: string)
    ensures Distance(a, a) == 0
  {
    if a != "" {
      SelfDistance(Init(a));
    }
  }

  /** No script is shorter than the recurrence. */
  lemma {:induction false} LowerBound(script: seq<Edit>, a: string, b: string)
    requires Transforms(script, a, b)
    ensures Distance(a, b) <= |script|
  {
    if script == [] {
      SelfDistance(a);
    } else {
      LowerBound(script[1..], Apply(script[0], a), b);
      OneEdit(script[0], a, b);
    }
  }

  lemma ApplyKeepsTail(e: Edit, a: string, t: string)
    requires Applicable(e, a)
    ensures Applicable(e, a + t) && Apply(e, a + t) == Apply(e, a) + t
  {
    assert (a + t)[..e.at] == a[..e.at];
    match e
    case Insert(at, _) =>
      assert (a + t)[at..] == a[at..] + t;
    case Delete(at) =>
      assert (a + t)[at + 1..] == a[at + 1..] + t;
    case Substitute(at, _) =>
      assert (a + t)[at + 1..] == a[at + 1..] + t;
  }

  /** A script leaves a common tail alone. */
  lemma {:induction false} KeepTail(script: seq<Edit>, a: string, b: string, t: string)
    requires Transforms(script, a, b)
    ensures Transforms(script, a + t, b + t)
  {
    if script != [] {
      ApplyKeepsTail(script[0], a, t);
      KeepTail(script[1..], Apply(script[0], a), b, t);
    }
  }

  lemma {:induction false} Append(script: seq<Edit>, a: string, b: string, e: Edit)
    requires Transforms(script, a, b) && Applicable(e, b)
    ensures Transforms(script + [e], a, Apply(e, b))
  {
    if script == [] {
      assert Transforms([e][1..], Apply(e, a), Apply(e, b));
    } else {
      Append(script[1..], Apply(script[0], a), b, e);
      assert (script + [e])[1..] == script[1..] + [e];
    }
  }

  lemma ThenInsert(script: seq<Edit>, a: string, b: string, c: char)
    requires Transforms(script, a, b)
    ensures Transforms(script + [Insert(|b|, c)], a, b + [c])
  {
    Append(script, a, b, Insert(|b|, c));
    assert Apply(Insert(|b|, c), b) == b + [c];
  }

  lemma ThenDelete(script: seq<Edit>, a: string, b: string, c: char)
    requires Transforms(script, a, b)
    ensures Transforms(script + [Delete(|b|)], a + [c], b)
  {
    KeepTail(script, a, b, [c]);
    Append(script, a + [c], b + [c], Delete(|b|));
    assert Apply(Delete(|b|), b + [c]) == b;
  }

  lemma ThenSubstitute(script: seq<Edit>, a: string, b: string, x: char, y: char)
    requires Transforms(script, a, b)
    ensures Transforms(script + [Substitute(|b|, y)], a + [x], b + [y])
  {
    KeepTail(script, a, b, [x]);
    Append(script, a + [x], b + [x], Substitute(|b|, y));
    assert Apply(Substitute(|b|, y), b + [x]) == b + [y];
  }

  /** The recurrence on nonempty texts takes one of four steps. */
  lemma DistanceSteps(a: string, b: string)
    requires a != "" && b != ""
    ensures a == Init(a) + [Last(a)] && b == Init(b) + [Last(b)]
    ensures Last(a) == Last(b) ==> Distance(a, b) == Distance(Init(a), Init(b))
    ensures Last(a) != Last(b) ==>
              || Distance(a, b) == 1 + Distance(Init(a), Init(b))
              || Distance(a, b) == 1 + Distance(a, Init(b))
              || Distance(a, b) == 1 + Distance(Init(a), b)
  {
  }

  /** A script of exactly that length exists. */
  lemma {:induction false} UpperBound(a: string, b: string) returns (script: seq<Edit>)
    ensures Transforms(script, a, b) && |script| == Distance(a, b)
    decreases |a| + |b|
  {
    if a == "" && b == "" {
      script := [];
    } else if a == "" {
      script := UpperBound(a, Init(b));
      ThenInsert(script, a, Init(b), Last(b));
      assert Init(b) + [Last(b)] == b;
      script := script + [Insert(|b| - 1, Last(b))];
    } else if b == "" {
      script := UpperBound(Init(a), b);
      ThenDelete(script, Init(a), b, Last(a));
      assert Init(a) + [Last(a)] == a;
      script := script + [Delete(|b|)];
    } else {
      script := UpperBoundBoth(a, b);
    }
  }

  lemma {:induction false} UpperBoundBoth(a: string, b: string) returns (script: seq<Edit>)
    requires a != "" && b != ""
    ensures Transforms(script, a, b) && |script| == Distance(a, b)
    decreases |a| + |b|, 0
  {
    DistanceSteps(a, b);
    if Last(a) == Last(b) {
      script := UpperBound(Init(a), Init(b));
      KeepTail(script, Init(a), Init(b), [Last(a)]);
    } else if Distance(a, b) == 1 + Distance(Init(a), Init(b)) {
      script := UpperBound(Init(a), Init(b));
      ThenSubstitute(script, Init(a), Init(b), Last(a), Last(b));
      script := script + [Substitute(|b| - 1, Last(b))];
    } else if Distance(a, b) == 1 + Distance(a, Init(b)) {
      script := UpperBound(a, Init(b));
      ThenInsert(script, a, Init(b), Last(b));
      script := script + [Insert(|b| - 1, Last(b))];
    } else {
      script := UpperBound(Init(a), b);
      ThenDelete(script, Init(a), b, Last(a));
      script := script + [Delete(|b|)];
    }
  }

  /** The recurrence is the edit distance. */
  lemma DistanceIsMinimal(a: string, b: string)
    ensures IsEditDistance(a, b, Distance(a, b))
  {
    var best := UpperBound(a, b);
    forall script | Transforms(script, a, b) ensures Distance(a, b) <= |script| {
      LowerBound(script, a, b);
    }
  }

  lemma OnlyDistance(a: string, b: string, d: nat)
    ensures IsEditDistance(a, b, d) <==> d == Distance(a, b)
  {
    DistanceIsMinimal(a, b);
    if IsEditDistance(a, b, d) {
      var best :| |best| == d && Transforms(best, a, b);
      LowerBound(best, a, b);
      var script := UpperBound(a, b);
    }
  }

  /** The bound behind the pruning: edits must at least make up for the difference in length. */
  lemma {:induction false} AtLeastLengthDifference(a: string, b: string)
    ensures Distance(a, b) >= |a| - |b|
    ensures Distance(a, b) >= |b| - |a|
    ensures Distance(a, b) <= |a| + |b|
    decreases |a| + |b|
  {
    if a != "" && b != "" {
      AtLeastLengthDifference(Init(a), Init(b));
      AtLeastLengthDifference(a, Init(b));
      AtLeastLengthDifference(Init(a), b);
    }
  }

  /** `toLowerCase`, as a map on characters; the identity outside the ASCII letters. */
  function LowerChar(c: char): char {
    if 'A' <= c <= 'Z' then (c as int - 'A' as int + 'a' as int) as char else c
  }

  function Lower(s: string): (r: string)
    ensures |r| == |s|
    ensures forall i :: 0 <= i < |s| ==> r[i] == LowerChar(s[i])
  {
    seq(|s|, i requires 0 <= i < |s| => LowerChar(s[i]))
  }

  lemma LowerTwice(s: string)
    ensures Lower(Lower(s)) == Lower(s)
  {
    assert forall i :: 0 <= i < |s| ==> LowerChar(LowerChar(s[i])) == LowerChar(s[i]);
  }

  /** The codes 65 to 90, A to Z, move up by 32, to a to z; nothing else changes. */
  lemma LowersLetters(c: char)
    ensures LowerChar(c) as int == if 65 <= c as int <= 90 then c as int + 32 else c as int
  {
    assert 'A' as int == 65 && 'Z' as int == 90 && 'a' as int == 97;
  }

  /** The value the loop computes for row `i`, column `j`. */
  ghost function Cell(a: string, b: string, i: nat, j: nat): nat
    requires i <= |a| && j <= |b|
  {
    Distance(a[..i], b[..j])
  }

  lemma CellStep(a: string, b: string, i: nat, j: nat)
    requires 1 <= i <= |a| && 1 <= j <= |b|
    ensures Cell(a, b, i, j) ==
            if a[i - 1] == b[j - 1] then Cell(a, b, i - 1, j - 1)
            else 1 + Min(Min(Cell(a, b, i - 1, j - 1), Cell(a, b, i, j - 1)), Cell(a, b, i - 1, j))
  {
    assert Init(a[..i]) == a[..i - 1] && Init(b[..j]) == b[..j - 1];
  }

  /** One turn of the outer loop: row `i - 1` in `costs` is overwritten by row `i`. When cell `j` is
      computed, `costs` holds row `i` up to `j - 2` and still row `i - 1` from `j - 1` on;
      `lastValue` holds cell `j - 1` of row `i`. */
  method NextRow(costs: array<nat>, a: string, b: string, i: nat)
    requires costs.Length == |b| + 1 && 1 <= i <= |a|
    requires forall k :: 0 <= k <= |b| ==> costs[k] == Cell(a, b, i - 1, k)
    modifies costs
    ensures forall k :: 0 <= k <= |b| ==> costs[k] == Cell(a, b, i, k)
  {
    var lastValue := i;
    var j := 1;
    while j <= |b|
      invariant 1 <= j <= |b| + 1
      invariant lastValue == Cell(a, b, i, j - 1)
      invariant forall k :: 0 <= k < j - 1 ==> costs[k] == Cell(a, b, i, k)
      invariant forall k :: j - 1 <= k <= |b| ==> costs[k] == Cell(a, b, i - 1, k)
    {
      var newValue := costs[j - 1];
      if a[i - 1] != b[j - 1] {
        newValue := Min(Min(newValue, lastValue), costs[j]) + 1;
      }
      CellStep(a, b, i, j);
      costs[j - 1] := lastValue;
      lastValue := newValue;
      j := j + 1;
    }
    costs[|b|] := lastValue;
  }

  /** `getLevenshteinDistance`; by DistanceIsMinimal, the fewest edits between the lower-cased texts. */
  method GetLevenshteinDistance(s1: string, s2: string) returns (d: nat)
    ensures d == Distance(Lower(s1), Lower(s2))
  {
    var a, b := Lower(s1), Lower(s2);
    var costs := new nat[|b| + 1];
    for j := 0 to |b| + 1
      invariant forall k :: 0 <= k < j ==> costs[k] == Cell(a, b, 0, k)
    {
      costs[j] := j;
    }
    for i := 1 to |a| + 1
      invariant forall k :: 0 <= k <= |b| ==> costs[k] == Cell(a, b, i - 1, k)
    {
      NextRow(costs, a, b, i);
    }
    assert a[..|a|] == a && b[..|b|] == b;
    d := costs[|b|];
  }
}
