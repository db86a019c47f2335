/** The regular expression matcher of grep.c: what it computes, what patterns
    mean, and that the two agree. Positions take the place of pointers into the
    pattern and the text. */
module Grep {
  // ---- what patterns mean ----

  /** One character, any number of one character, or the end of the text. */
  datatype Item = One(c: char) | Star(c: char) | End

  function Items(re: string, k: nat): seq<Item>
    requires k <= |re|
    decreases |re| - k
  {
    if k == |re| then []
    else if k + 1 < |re| && re[k + 1] == '*' then [Star(re[k])] + Items(re, k + 2)
    else if re[k] == '$' && k + 1 == |re| then [End]
    else [One(re[k])] + Items(re, k + 1)
  }

  /** A dot stands for every character. */
  predicate Is(c: char, x: char) { c == '.' || c == x }

  /** The item spells the text from a to b. */
  ghost predicate Spells(item: Item, t: string, a: nat, b: nat) {
    && a <= b <= |t|
    && match item
       case One(c) => b == a + 1 && (c == '.' || c == t[a])
       case Star(c) => forall p :: a <= p < b ==> c == '.' || c == t[p]
       case End => a == b == |t|
  }

  /** The text from cuts[0] on is cut into pieces that the items spell. */
  ghost predicate Cut(items: seq<Item>, t: string, cuts: seq<nat>) {
    |cuts| == |items| + 1 && cuts[0] <= |t|
    && forall j :: 0 <= j < |items| ==> Spells(items[j], t, cuts[j], cuts[j + 1])
  }

  /** Some prefix of the text from i on is in the language of the items. */
  ghost predicate Starts(items: seq<Item>, t: string, i: nat) {
    exists cuts :: Cut(items, t, cuts) && cuts[0] == i
  }

  /** A pattern is found in the text: at the start after ^, else anywhere. */
  ghost predicate Found(re: string, t: string) {
    if re != "" && re[0] == '^' then Starts(Items(re, 1), t, 0)
    else exists i: nat :: i <= |t| && Starts(Items(re, 0), t, i)
  }

  // ---- what the matcher computes ----

  predicate Here(re: string, k: nat, t: string, i: nat)
    requires k <= |re| && i <= |t|
    decreases |re| - k, 0
  {
    if k == |re| then true
    else if k + 1 < |re| && re[k + 1] == '*' then StarHere(re[k], re, k + 2, t, i)
    else if re[k] == '$' && k + 1 == |re| then i == |t|
    else i < |t| && Is(re[k], t[i]) && Here(re, k + 1, t, i + 1)
  }

  predicate StarHere(c: char, re: string, k: nat, t: string, i: nat)
    requires k <= |re| && i <= |t|
    decreases |re| - k, 1 + |t| - i
  {
    Here(re, k, t, i) || (i < |t| && Is(c, t[i]) && StarHere(c, re, k, t, i + 1))
  }

  // ---- the loops of the source ----

  method MatchHere(re: string, k: nat, t: string, i: nat) returns (r: bool)
    requires k <= |re| && i <= |t|
    ensures r == Here(re, k, t, i)
    decreases |re| - k, 0
  {
    if k == |re| {
      return true;
    }
    if k + 1 < |re| && re[k + 1] == '*' {
      r := MatchStar(re[k], re, k + 2, t, i);
      return;
    }
    if re[k] == '$' && k + 1 == |re| {
      return i == |t|;
    }
    if i < |t| && (re[k] == '.' || re[k] == t[i]) {
      r := MatchHere(re, k + 1, t, i + 1);
      return;
    }
    return false;
  }

  method MatchStar(c: char, re: string, k: nat, t: string, start: nat) returns (r: bool)
    requires k <= |re| && start <= |t|
    ensures r == StarHere(c, re, k, t, start)
    decreases |re| - k, 1
  {
    var i := start;
    while true
      invariant start <= i <= |t| && StarHere(c, re, k, t, i) == StarHere(c, re, k, t, start)
      decreases |t| - i
    {
      var here := MatchHere(re, k, t, i);
      if here {
        return true;
      }
      if i == |t| || !(t[i] == c || c == '.') {
        return false;
      }
      i := i + 1;
    }
  }

  /** match finds a pattern exactly when it is there. */
  method Match(re: string, t: string) returns (r: bool)
    ensures r == Found(re, t)
  {
    if re != "" && re[0] == '^' {
      r := MatchHere(re, 1, t, 0);
      HereIff(re, 1, t, 0);
      return;
    }
    var i := 0;
    while true
      invariant 0 <= i <= |t| && forall j :: 0 <= j < i ==> !Starts(Items(re, 0), t, j)
      decreases |t| - i
    {
      var here := MatchHere(re, 0, t, i);
      HereIff(re, 0, t, i);
      if here {
        return true;
      }
      if i == |t| {
        return false;
      }
      i := i + 1;
    }
  }

  // ---- they agree ----

  lemma CutCons(item: Item, items: seq<Item>, t: string, a: nat, cuts: seq<nat>)
    requires Cut(items, t, cuts) && Spells(item, t, a, cuts[0])
    ensures Cut([item] + items, t, [a] + cuts)
  {
    forall j | 0 <= j < |items| + 1 ensures Spells(([item] + items)[j], t, ([a] + cuts)[j], ([a] + cuts)[j + 1]) {
      if j > 0 { assert Spells(items[j - 1], t, cuts[j - 1], cuts[j]); }
    }
  }

  lemma CutTail(item: Item, items: seq<Item>, t: string, cuts: seq<nat>)
    requires Cut([item] + items, t, cuts)
    ensures Spells(item, t, cuts[0], cuts[1]) && Cut(items, t, cuts[1..])
  {
    assert Spells(([item] + items)[0], t, cuts[0], cuts[1]);
    forall j | 0 <= j < |items| ensures Spells(items[j], t, cuts[1..][j], cuts[1..][j + 1]) {
      assert Spells(([item] + items)[j + 1], t, cuts[j + 1], cuts[j + 2]);
    }
  }

  /** A match gives the cuts. */
  lemma {:induction false} HereSound(re: string, k: nat, t: string, i: nat) returns (cuts: seq<nat>)
    requires k <= |re| && i <= |t| && Here(re, k, t, i)
    ensures Cut(Items(re, k), t, cuts) && cuts[0] == i
    decreases |re| - k, 0
  {
    if k == |re| {
      cuts := [i];
    } else if k + 1 < |re| && re[k + 1] == '*' {
      cuts := StarSound(re[k], re, k + 2, t, i);
      CutCons(Star(re[k]), Items(re, k + 2), t, i, cuts);
      cuts := [i] + cuts;
    } else if re[k] == '$' && k + 1 == |re| {
      cuts := [i, i];
    } else {
      cuts := HereSound(re, k + 1, t, i + 1);
      CutCons(One(re[k]), Items(re, k + 1), t, i, cuts);
      cuts := [i] + cuts;
    }
  }

  lemma {:induction false} StarSound(c: char, re: string, k: nat, t: string, i: nat) returns (cuts: seq<nat>)
    requires k <= |re| && i <= |t| && StarHere(c, re, k, t, i)
    ensures Cut(Items(re, k), t, cuts) && Spells(Star(c), t, i, cuts[0])
    decreases |re| - k, 1 + |t| - i
  {
    if Here(re, k, t, i) {
      cuts := HereSound(re, k, t, i);
    } else {
      cuts := StarSound(c, re, k, t, i + 1);
    }
  }

  /** Cuts give a match. */
  lemma {:induction false} HereComplete(re: string, k: nat, t: string, cuts: seq<nat>)
    requires k <= |re| && Cut(Items(re, k), t, cuts)
    ensures Here(re, k, t, cuts[0])
    decreases |re| - k, 0
  {
    if k == |re| {
    } else if k + 1 < |re| && re[k + 1] == '*' {
      CutTail(Star(re[k]), Items(re, k + 2), t, cuts);
      StarComplete(re[k], re, k + 2, t, cuts[0], cuts[1..]);
    } else if re[k] == '$' && k + 1 == |re| {
      assert Spells(Items(re, k)[0], t, cuts[0], cuts[1]);
    } else {
      CutTail(One(re[k]), Items(re, k + 1), t, cuts);
      HereComplete(re, k + 1, t, cuts[1..]);
    }
  }

  lemma {:induction false} StarComplete(c: char, re: string, k: nat, t: string, i: nat, cuts: seq<nat>)
    requires k <= |re| && Cut(Items(re, k), t, cuts) && Spells(Star(c), t, i, cuts[0])
    ensures StarHere(c, re, k, t, i)
    decreases |re| - k, 1 + |t| - i
  {
    if i == cuts[0] {
      HereComplete(re, k, t, cuts);
    } else {
      StarComplete(c, re, k, t, i + 1, cuts);
    }
  }

  lemma HereIff(re: string, k: nat, t: string, i: nat)
    requires k <= |re| && i <= |t|
    ensures Here(re, k, t, i) <==> Starts(Items(re, k), t, i)
  {
    if Here(re, k, t, i) {
      var cuts := HereSound(re, k, t, i);
    }
    if Starts(Items(re, k), t, i) {
      var cuts :| Cut(Items(re, k), t, cuts) && cuts[0] == i;
      HereComplete(re, k, t, cuts);
    }
  }
}
