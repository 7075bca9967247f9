/** The leaderboard: named scores kept sorted by score, highest first, and
    cut to the best twenty on every save. */
module Leaderboard {

  /** One saved result: the player's name, the score and the save time. */
  datatype Entry = Entry(name: string, score: int, date: string)

  /** How many entries the stored leaderboard keeps. */
  const MaxEntries: nat := 20

  /** The name recorded when the player leaves the name field blank. */
  const DefaultName: string := "名無しさん"

  function Min(x: int, y: int): int {
    if x <= y then x else y
  }

  // ---------------------------------------------------------------------
  // The player's name

  /** The characters that string trimming removes: the white-space and
      line-terminator characters of the ECMAScript language. */
  predicate IsTrimmable(c: char) {
    c == '\t' || c == '\n' || c == '\U{000B}' || c == '\U{000C}' || c == '\r' ||
    c == ' ' || c == '\U{00A0}' || c == '\U{1680}' || ('\U{2000}' <= c <= '\U{200A}') ||
    c == '\U{2028}' || c == '\U{2029}' || c == '\U{202F}' || c == '\U{205F}' ||
    c == '\U{3000}' || c == '\U{FEFF}'
  }

  predicate AllTrimmable(s: string) {
    forall i :: 0 <= i < |s| ==> IsTrimmable(s[i])
  }

  /** s without its leading white space. */
  function TrimStart(s: string): (t: string)
    ensures |t| <= |s| && t == s[|s| - |t|..]
    ensures forall i :: 0 <= i < |s| - |t| ==> IsTrimmable(s[i])
    ensures t != [] ==> !IsTrimmable(t[0])
  {
    if s != [] && IsTrimmable(s[0]) then
      var t := TrimStart(s[1..]);
      assert s[1..][|s| - 1 - |t|..] == s[|s| - |t|..];
      assert forall i :: 1 <= i < |s| - |t| ==> s[i] == s[1..][i - 1];
      t
    else s
  }

  /** s without its trailing white space. */
  function TrimEnd(s: string): (t: string)
    ensures |t| <= |s| && t == s[..|t|]
    ensures forall i :: |t| <= i < |s| ==> IsTrimmable(s[i])
    ensures t != [] ==> !IsTrimmable(t[|t| - 1])
  {
    if s != [] && IsTrimmable(s[|s| - 1]) then
      var t := TrimEnd(s[..|s| - 1]);
      assert s[..|s| - 1][..|t|] == s[..|t|];
      assert forall i :: |t| <= i < |s| - 1 ==> s[i] == s[..|s| - 1][i];
      t
    else s
  }

  /** s without white space at either end; empty exactly when s is all
      white space. */
  function Trim(s: string): (t: string)
    ensures t == [] <==> AllTrimmable(s)
    ensures t != [] ==> !IsTrimmable(t[0]) && !IsTrimmable(t[|t| - 1])
  {
    var u := TrimStart(s);
    var t := TrimEnd(u);
    assert t != [] ==> t[0] == u[0];
    assert u != [] ==> t != [];
    assert u != [] ==> !AllTrimmable(s) by {
      if u != [] {
        assert s[|s| - |u|] == u[0];
      }
    }
    assert u == [] ==> s[..|s| - |u|] == s;
    t
  }

  /** t is the stretch s[i..j] of s, and everything before and after it is
      white space. */
  predicate IsCutFrom(t: string, s: string, i: int, j: int) {
    0 <= i <= j <= |s| && t == s[i..j] && AllTrimmable(s[..i]) && AllTrimmable(s[j..])
  }

  /** What Trim keeps is one contiguous stretch of s, and everything it cuts
      off before and after that stretch is white space. */
  lemma TrimCutsOnlyWhiteSpace(s: string)
    ensures exists i, j :: IsCutFrom(Trim(s), s, i, j)
  {
    var u := TrimStart(s);
    var t := TrimEnd(u);
    var i := |s| - |u|;
    CutAtBothEnds(s, u, t, i);
    assert IsCutFrom(Trim(s), s, i, i + |t|);
  }

  /** Cutting white space off the front of s, leaving u, and then off the
      back of u, leaving t, cuts t out of s. */
  lemma CutAtBothEnds(s: string, u: string, t: string, i: int)
    requires 0 <= i <= |s| && u == s[i..] && forall k :: 0 <= k < i ==> IsTrimmable(s[k])
    requires |t| <= |u| && t == u[..|t|] && forall k :: |t| <= k < |u| ==> IsTrimmable(u[k])
    ensures IsCutFrom(t, s, i, i + |t|)
  {
    var j := i + |t|;
    assert t == s[i..j];
    forall k | 0 <= k < i
      ensures IsTrimmable(s[..i][k])
    {
      assert s[..i][k] == s[k];
    }
    forall k | 0 <= k < |s| - j
      ensures IsTrimmable(s[j..][k])
    {
      assert s[j..][k] == u[|t| + k];
    }
  }

  /** The name a save records: the trimmed input, or the default name when
      nothing but white space was typed. It is never empty. */
  function PlayerName(input: string): (name: string)
    ensures name != []
    ensures AllTrimmable(input) ==> name == DefaultName
    ensures !AllTrimmable(input) ==> name == Trim(input)
  {
    var t := Trim(input);
    if t == [] then DefaultName else t
  }

  // ---------------------------------------------------------------------
  // Ranking

  predicate SortedDesc(s: seq<Entry>) {
    forall i, j :: 0 <= i < j < |s| ==> s[i].score >= s[j].score
  }

  /** Inserts x into s, moving it forward from the back past every entry
      that scores strictly less than it. */
  function InsertDesc(s: seq<Entry>, x: Entry): (r: seq<Entry>)
    ensures |r| == |s| + 1
  {
    if s == [] || s[|s| - 1].score >= x.score then s + [x]
    else InsertDesc(s[..|s| - 1], x) + [s[|s| - 1]]
  }

  /** The stable sort by descending score: each entry in turn is inserted
      into the sorted prefix before it. */
  function SortDesc(s: seq<Entry>): (r: seq<Entry>)
    ensures |r| == |s|
  {
    if s == [] then [] else InsertDesc(SortDesc(s[..|s| - 1]), s[|s| - 1])
  }

  /** The stored leaderboard after saving x onto s: all entries sorted by
      descending score, the first twenty kept. */
  function TopScores(s: seq<Entry>, x: Entry): (r: seq<Entry>)
    ensures |r| == Min(|s| + 1, MaxEntries)
  {
    SortDesc(s + [x])[..Min(|s| + 1, MaxEntries)]
  }

  /** The entries of s with score v, in their order in s. */
  function WithScore(s: seq<Entry>, v: int): seq<Entry> {
    if s == [] then []
    else WithScore(s[..|s| - 1], v) + (if s[|s| - 1].score == v then [s[|s| - 1]] else [])
  }

  lemma {:induction false} InsertDescPermutes(s: seq<Entry>, x: Entry)
    ensures multiset(InsertDesc(s, x)) == multiset(s) + multiset{x}
  {
    if s != [] && s[|s| - 1].score < x.score {
      InsertDescPermutes(s[..|s| - 1], x);
      assert s == s[..|s| - 1] + [s[|s| - 1]];
    }
  }

  /** Sorting rearranges the entries and drops or adds none. */
  lemma {:induction false} SortDescPermutes(s: seq<Entry>)
    ensures multiset(SortDesc(s)) == multiset(s)
  {
    if s != [] {
      SortDescPermutes(s[..|s| - 1]);
      InsertDescPermutes(SortDesc(s[..|s| - 1]), s[|s| - 1]);
      assert s == s[..|s| - 1] + [s[|s| - 1]];
    }
  }

  lemma {:induction false} InsertDescSorted(s: seq<Entry>, x: Entry)
    requires SortedDesc(s)
    ensures SortedDesc(InsertDesc(s, x))
  {
    if s != [] && s[|s| - 1].score < x.score {
      var init, last := s[..|s| - 1], s[|s| - 1];
      InsertDescSorted(init, x);
      InsertDescPermutes(init, x);
      var r' := InsertDesc(init, x);
      forall i | 0 <= i < |r'|
        ensures r'[i].score >= last.score
      {
        assert r'[i] in multiset(r');
        if r'[i] != x {
          assert r'[i] in multiset(init);
          var j :| 0 <= j < |init| && init[j] == r'[i];
          assert s[j] == init[j];
        }
      }
    }
  }

  /** Sorting puts the entries in descending order of score. */
  lemma {:induction false} SortDescSorted(s: seq<Entry>)
    ensures SortedDesc(SortDesc(s))
  {
    if s != [] {
      SortDescSorted(s[..|s| - 1]);
      InsertDescSorted(SortDesc(s[..|s| - 1]), s[|s| - 1]);
    }
  }

  lemma {:induction false} WithScoreAppend(s: seq<Entry>, t: seq<Entry>, v: int)
    ensures WithScore(s + t, v) == WithScore(s, v) + WithScore(t, v)
    decreases |t|
  {
    if t != [] {
      assert (s + t)[..|s + t| - 1] == s + t[..|t| - 1];
      WithScoreAppend(s, t[..|t| - 1], v);
    } else {
      assert s + t == s;
    }
  }

  lemma {:induction false} InsertDescKeepsTies(s: seq<Entry>, x: Entry, v: int)
    ensures WithScore(InsertDesc(s, x), v) == WithScore(s, v) + WithScore([x], v)
  {
    if s == [] || s[|s| - 1].score >= x.score {
      WithScoreAppend(s, [x], v);
    } else {
      var init, last := s[..|s| - 1], s[|s| - 1];
      var r' := InsertDesc(init, x);
      assert InsertDesc(s, x) == r' + [last];
      var before, mine, theirs := WithScore(init, v), WithScore([x], v), WithScore([last], v);
      InsertDescKeepsTies(init, x, v);
      WithScoreAppend(r', [last], v);
      assert WithScore(InsertDesc(s, x), v) == before + mine + theirs;
      assert s == init + [last];
      WithScoreAppend(init, [last], v);
      assert WithScore(s, v) == before + theirs;
      // last scores below x, so at most one of them has score v
      assert mine == [] || theirs == [];
    }
  }

  /** The sort is stable: entries with equal scores keep their relative
      order. */
  lemma {:induction false} SortDescStable(s: seq<Entry>, v: int)
    ensures WithScore(SortDesc(s), v) == WithScore(s, v)
  {
    if s != [] {
      var init, last := s[..|s| - 1], s[|s| - 1];
      SortDescStable(init, v);
      InsertDescKeepsTies(SortDesc(init), last, v);
      WithScoreAppend(init, [last], v);
      assert s == init + [last];
    }
  }

  /** A sequence that is already sorted is left as it is. */
  lemma {:induction false} SortDescOfSorted(s: seq<Entry>)
    requires SortedDesc(s)
    ensures SortDesc(s) == s
  {
    if s != [] {
      var init, last := s[..|s| - 1], s[|s| - 1];
      assert SortedDesc(init) by {
        forall i, j | 0 <= i < j < |init|
          ensures init[i].score >= init[j].score
        {
          assert init[i] == s[i] && init[j] == s[j];
        }
      }
      SortDescOfSorted(init);
      assert init != [] ==> init[|init| - 1].score >= last.score by {
        if init != [] {
          assert init[|init| - 1] == s[|s| - 2];
        }
      }
      assert SortDesc(s) == InsertDesc(init, last);
      assert s == init + [last];
    }
  }

  /** Insertion stops at the first entry, counting from the back, that
      scores at least as much as x: when every entry from k on scores less
      than x and the entry before k does not, x lands at position k. */
  lemma {:induction false} InsertDescAt(s: seq<Entry>, x: Entry, k: nat)
    requires k <= |s| && (k == 0 || s[k - 1].score >= x.score)
    requires forall i :: k <= i < |s| ==> s[i].score < x.score
    ensures InsertDesc(s, x) == s[..k] + [x] + s[k..]
  {
    if k < |s| {
      var init, last := s[..|s| - 1], s[|s| - 1];
      assert last.score < x.score;
      assert InsertDesc(s, x) == InsertDesc(init, x) + [last];
      InsertDescAt(init, x, k);
      assert s == init + [last];
      assert init[..k] == s[..k];
      assert init[k..] + [last] == s[k..];
    } else {
      assert s[..k] == s && s[k..] == [];
    }
  }

  /** In a sorted sequence, nothing after position n scores above anything
      before it. */
  lemma PrefixOutranksRest(all: seq<Entry>, n: nat)
    requires SortedDesc(all) && n <= |all|
    ensures forall e, i :: e in multiset(all) - multiset(all[..n]) && 0 <= i < n ==> all[i].score >= e.score
  {
    var rest := all[n..];
    assert all == all[..n] + rest;
    assert multiset(all) - multiset(all[..n]) == multiset(rest);
    forall e: Entry, i | e in multiset(rest) && 0 <= i < n
      ensures all[i].score >= e.score
    {
      assert e in rest;
      var j :| 0 <= j < |rest| && rest[j] == e;
      assert all[n + j] == e;
    }
  }

  /** The saved leaderboard is sorted by descending score. */
  lemma TopScoresSorted(s: seq<Entry>, x: Entry)
    ensures SortedDesc(TopScores(s, x))
  {
    SortDescSorted(s + [x]);
  }

  /** The saved leaderboard holds only entries of the old board and the new
      one, and nothing left out scores above anything kept. */
  lemma TopScoresKeepsBest(s: seq<Entry>, x: Entry)
    ensures multiset(TopScores(s, x)) <= multiset(s + [x])
    ensures forall e, i :: e in multiset(s + [x]) - multiset(TopScores(s, x)) && 0 <= i < |TopScores(s, x)|
              ==> TopScores(s, x)[i].score >= e.score
  {
    var all := SortDesc(s + [x]);
    var n := Min(|s| + 1, MaxEntries);
    SortDescSorted(s + [x]);
    SortDescPermutes(s + [x]);
    PrefixOutranksRest(all, n);
    assert all == all[..n] + all[n..];
  }

  /** Saving onto a sorted board inserts the new entry after every entry
      scoring at least as much (an equal score does not displace an older
      entry) and then keeps the first twenty. */
  lemma TopScoresOfSorted(s: seq<Entry>, x: Entry, k: nat)
    requires SortedDesc(s) && k <= |s|
    requires forall i :: 0 <= i < k ==> s[i].score >= x.score
    requires forall i :: k <= i < |s| ==> s[i].score < x.score
    ensures TopScores(s, x) == (s[..k] + [x] + s[k..])[..Min(|s| + 1, MaxEntries)]
  {
    SortDescOfSorted(s);
    assert (s + [x])[..|s|] == s;
    InsertDescAt(s, x, k);
  }

  /** On a full sorted board a score no higher than the lowest entry changes
      nothing: a tie goes after the older entry and is cut. */
  lemma FullBoardIgnoresLowScore(s: seq<Entry>, x: Entry)
    requires SortedDesc(s) && |s| == MaxEntries
    requires x.score <= s[|s| - 1].score
    ensures TopScores(s, x) == s
  {
    TopScoresOfSorted(s, x, |s|);
    assert (s + [x])[..|s|] == s;
  }

  // ---------------------------------------------------------------------
  // The in-place sort

  /** What the insertion loop leaves behind: the entries before the gap,
      then x, then the shifted entries. */
  lemma ShiftedIsInserted(b: seq<Entry>, s: seq<Entry>, x: Entry, j: nat)
    requires |b| == |s| + 1 && j <= |s| && b[j] == x
    requires forall k :: 0 <= k < j ==> b[k] == s[k]
    requires forall k :: j < k < |b| ==> b[k] == s[k - 1]
    ensures b == s[..j] + [x] + s[j..]
  {
  }

  /** Sequences that agree from position n on have the same suffix there. */
  lemma SameFrom(b: seq<Entry>, c: seq<Entry>, n: nat)
    requires |b| == |c| && n <= |b|
    requires forall k :: n <= k < |b| ==> b[k] == c[k]
    ensures b[n..] == c[n..]
  {
    assert forall k :: 0 <= k < |b| - n ==> b[n..][k] == b[n + k] && c[n..][k] == c[n + k];
  }

  /** Sorting one more entry inserts it into the sorted prefix. */
  lemma SortDescStep(s: seq<Entry>, i: nat)
    requires i < |s|
    ensures SortDesc(s[..i + 1]) == InsertDesc(SortDesc(s[..i]), s[i])
  {
    assert s[..i + 1][..i] == s[..i];
  }

  /** Inserts a[i] into the sorted run a[..i], shifting the entries that
      score less than it one place to the right. */
  method InsertInto(a: array<Entry>, i: nat)
    requires i < a.Length
    modifies a
    ensures a[..i + 1] == InsertDesc(old(a[..i]), old(a[i]))
    ensures a[i + 1..] == old(a[i + 1..])
  {
    var x := a[i];
    ghost var before := a[..];
    ghost var sorted := a[..i];
    var j := i;
    while j > 0 && a[j - 1].score < x.score
      invariant 0 <= j <= i
      invariant forall k :: 0 <= k < j ==> a[k] == sorted[k]
      invariant forall k :: j < k <= i ==> a[k] == sorted[k - 1]
      invariant forall k :: i < k < a.Length ==> a[k] == before[k]
      invariant forall k :: j <= k < i ==> sorted[k].score < x.score
    {
      a[j] := a[j - 1];
      j := j - 1;
    }
    a[j] := x;
    InsertDescAt(sorted, x, j);
    ShiftedIsInserted(a[..i + 1], sorted, x, j);
    SameFrom(a[..], before, i + 1);
  }

  /** Sorts a by descending score in place, keeping the order of entries
      with equal scores. */
  method SortByScoreDesc(a: array<Entry>)
    modifies a
    ensures a[..] == SortDesc(old(a[..]))
  {
    ghost var orig := a[..];
    var i := 0;
    while i < a.Length
      invariant 0 <= i <= a.Length
      invariant a[..i] == SortDesc(orig[..i])
      invariant a[i..] == orig[i..]
    {
      ghost var sorted := a[..i];
      ghost var rest := a[i..];
      assert a[i] == rest[0] == orig[i];
      assert a[i + 1..] == rest[1..] == orig[i + 1..];
      InsertInto(a, i);
      SortDescStep(orig, i);
      assert a[..i + 1] == InsertDesc(sorted, orig[i]) == SortDesc(orig[..i + 1]);
      i := i + 1;
    }
    assert orig[..a.Length] == orig;
  }

  /** Pushes the entry onto the stored board, sorts the array in place and
      keeps its first twenty entries. */
  method Save(stored: seq<Entry>, entry: Entry) returns (top: seq<Entry>)
    ensures top == TopScores(stored, entry)
  {
    var board := stored + [entry];
    var a := new Entry[|board|](i requires 0 <= i < |board| => board[i]);
    assert a[..] == board;
    SortByScoreDesc(a);
    top := a[..Min(a.Length, MaxEntries)];
  }
}
