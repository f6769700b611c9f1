/** Whole-table operations of pandas over tables held as sequences of rows. */
module Tables {
  import opened Options

  /** `idx` lists, in increasing order, the positions of `s` that `r` is made of:
      `r` is the subsequence of `s` at those positions. */
  ghost predicate Embeds<T>(r: seq<T>, s: seq<T>, idx: seq<nat>) {
    && |idx| == |r|
    && (forall k :: 0 <= k < |idx| ==> idx[k] < |s| && r[k] == s[idx[k]])
    && (forall k, l :: 0 <= k < l < |idx| ==> idx[k] < idx[l])
  }

  /** Applies `f` to every row: a per-row column assignment. */
  function MapRows<T, U>(s: seq<T>, f: T -> U): (r: seq<U>)
    ensures |r| == |s|
    ensures forall i :: 0 <= i < |s| ==> r[i] == f(s[i])
  {
    seq(|s|, i requires 0 <= i < |s| => f(s[i]))
  }

  /** Boolean indexing `df[mask]`: the rows that satisfy `keep`, each as often as in `s`. */
  function Select<T(==)>(s: seq<T>, keep: T -> bool): (r: seq<T>)
    ensures |r| <= |s|
    ensures forall x :: x in r ==> x in s && keep(x)
    ensures forall x :: x in s && keep(x) ==> multiset(r)[x] == multiset(s)[x]
  {
    if s == [] then []
    else
      var rest := Select(s[1..], keep);
      assert s == [s[0]] + s[1..];
      if keep(s[0]) then [s[0]] + rest else rest
  }

  /** A row of the table is in the selection exactly when it satisfies the mask. */
  lemma SelectMember<T>(s: seq<T>, keep: T -> bool, x: T)
    requires x in s
    ensures x in Select(s, keep) <==> keep(x)
  {
    if keep(x) {
      assert multiset(Select(s, keep))[x] == multiset(s)[x] > 0;
    }
  }

  /** `MapRows` of a tail is the tail of `MapRows`. */
  lemma MapRowsTail<T, U>(s: seq<T>, f: T -> U)
    requires s != []
    ensures MapRows(s, f) == [f(s[0])] + MapRows(s[1..], f)
  {
    assert MapRows(s, f)[1..] == MapRows(s[1..], f);
  }

  /** The values `key` takes on the rows of `s`. */
  ghost function KeySet<T, K>(s: seq<T>, key: T -> K): set<K> {
    set x | x in s :: key(x)
  }

  /** A per-row map that carries the key over leaves the set of keys unchanged. */
  lemma MapRowsKeys<T, U, K>(s: seq<T>, f: T -> U, key: T -> K, mappedKey: U -> K)
    requires forall x :: x in s ==> mappedKey(f(x)) == key(x)
    ensures KeySet(MapRows(s, f), mappedKey) == KeySet(s, key)
  {
    var r := MapRows(s, f);
    forall y | y in r ensures mappedKey(y) in KeySet(s, key) {
      var k :| 0 <= k < |r| && r[k] == y;
      assert s[k] in s;
    }
    forall x | x in s ensures key(x) in KeySet(r, mappedKey) {
      var k :| 0 <= k < |s| && s[k] == x;
      assert r[k] in r;
    }
  }

  /** Every position shifted by one: positions in `s[1..]` read as positions in `s`. */
  function Shift(idx: seq<nat>): (r: seq<nat>)
    ensures |r| == |idx| && forall k :: 0 <= k < |idx| ==> r[k] == idx[k] + 1
  {
    seq(|idx|, k requires 0 <= k < |idx| => idx[k] + 1)
  }

  /** Positions in `s[1..]`, shifted by one, are positions in `s`. */
  lemma EmbedsShift<T>(r: seq<T>, s: seq<T>, idx: seq<nat>)
    requires s != [] && Embeds(r, s[1..], idx)
    ensures Embeds(r, s, Shift(idx))
  {
    var t := Shift(idx);
    forall k | 0 <= k < |t| ensures t[k] < |s| && r[k] == s[t[k]] {
      assert s[1..][idx[k]] == s[t[k]];
    }
  }

  /** A subsequence avoiding position 0 extends by the first element. */
  lemma EmbedsCons<T>(r: seq<T>, s: seq<T>, t: seq<nat>)
    requires s != [] && Embeds(r, s, t)
    requires forall k :: 0 <= k < |t| ==> 0 < t[k]
    ensures Embeds([s[0]] + r, s, [0] + t)
  {
    var j := [0] + t;
    var r0 := [s[0]] + r;
    forall k | 0 < k < |j| ensures j[k] < |s| && r0[k] == s[j[k]] {
      assert j[k] == t[k - 1] && r0[k] == r[k - 1];
    }
    forall k, l | 0 <= k < l < |j| ensures j[k] < j[l] {
      assert j[l] == t[l - 1];
      if k > 0 {
        assert j[k] == t[k - 1];
      }
    }
  }

  lemma EmbedsInTail<T>(r: seq<T>, s: seq<T>, idx: seq<nat>)
    requires s != [] && Embeds(r, s[1..], idx)
    ensures Embeds(r, s, Shift(idx))
    ensures Embeds([s[0]] + r, s, [0] + Shift(idx))
  {
    EmbedsShift(r, s, idx);
    EmbedsCons(r, s, Shift(idx));
  }

  /** Boolean indexing keeps the original order: the result is a subsequence of `s`
      (with the multiset clauses of `Select`, the subsequence of all rows that satisfy `keep`). */
  lemma {:induction false} SelectKeepsOrder<T>(s: seq<T>, keep: T -> bool) returns (idx: seq<nat>)
    ensures Embeds(Select(s, keep), s, idx)
  {
    if s == [] {
      idx := [];
    } else {
      var tail := SelectKeepsOrder(s[1..], keep);
      EmbedsInTail(Select(s[1..], keep), s, tail);
      idx := if keep(s[0]) then [0] + Shift(tail) else Shift(tail);
    }
  }

  /** A subsequence of a subsequence is a subsequence. */
  lemma EmbedsCompose<T>(r: seq<T>, s: seq<T>, t: seq<T>, inner: seq<nat>, outer: seq<nat>) returns (idx: seq<nat>)
    requires Embeds(r, s, inner) && Embeds(s, t, outer)
    ensures Embeds(r, t, idx)
  {
    idx := seq(|inner|, k requires 0 <= k < |inner| => outer[inner[k]]);
  }

  /** Filtering a filtered table again changes nothing. */
  lemma {:induction false} SelectIdempotent<T>(s: seq<T>, keep: T -> bool)
    ensures Select(Select(s, keep), keep) == Select(s, keep)
  {
    if s != [] {
      SelectIdempotent(s[1..], keep);
    }
  }

  /** Filtering rows that all satisfy the mask keeps them all. */
  lemma {:induction false} SelectAll<T>(s: seq<T>, keep: T -> bool)
    requires forall x :: x in s ==> keep(x)
    ensures Select(s, keep) == s
  {
    if s != [] {
      assert s[0] in s;
      SelectAll(s[1..], keep);
    }
  }

  /** `drop_duplicates(key)` on the rows of `s` whose key is not yet in `seen`: the first
      row of every key value, in order of first occurrence. */
  function DedupFrom<T(==), K(==)>(s: seq<T>, key: T -> K, seen: set<K>): (r: seq<T>)
    ensures |r| <= |s|
    ensures forall x :: x in r ==> x in s && key(x) !in seen
    ensures KeySet(r, key) == KeySet(s, key) - seen
    ensures forall k, l :: 0 <= k < l < |r| ==> key(r[k]) != key(r[l])
    decreases |s|
  {
    if s == [] then []
    else if key(s[0]) in seen then
      var r := DedupFrom(s[1..], key, seen);
      assert s == [s[0]] + s[1..];
      r
    else
      var rest := DedupFrom(s[1..], key, seen + {key(s[0])});
      var r := [s[0]] + rest;
      assert s == [s[0]] + s[1..];
      assert KeySet(r, key) == {key(s[0])} + KeySet(rest, key);
      r
  }

  /** `drop_duplicates(key)`: keeps the first row of every distinct key value. */
  function DropDuplicates<T(==), K(==)>(s: seq<T>, key: T -> K): (r: seq<T>)
    ensures |r| <= |s|
    ensures forall x :: x in r ==> x in s
    ensures KeySet(r, key) == KeySet(s, key)
    ensures forall k, l :: 0 <= k < l < |r| ==> key(r[k]) != key(r[l])
  {
    DedupFrom(s, key, {})
  }

  /** De-duplicating after a per-row map that keeps the key is mapping the de-duplicated
      rows: adding a column does not change which rows `drop_duplicates` keeps. */
  lemma {:induction false} DedupFromMap<T, U, K>(s: seq<T>, f: T -> U, key: T -> K, mappedKey: U -> K, seen: set<K>)
    requires forall x :: x in s ==> mappedKey(f(x)) == key(x)
    ensures DedupFrom(MapRows(s, f), mappedKey, seen) == MapRows(DedupFrom(s, key, seen), f)
    decreases |s|
  {
    if s != [] {
      assert s[0] in s;
      forall x | x in s[1..] ensures mappedKey(f(x)) == key(x) {
        assert x in s;
      }
      MapRowsTail(s, f);
      assert MapRows(s, f)[0] == f(s[0]) && MapRows(s, f)[1..] == MapRows(s[1..], f);
      var seen' := if key(s[0]) in seen then seen else seen + {key(s[0])};
      DedupFromMap(s[1..], f, key, mappedKey, seen');
      if key(s[0]) !in seen {
        MapRowsTail(DedupFrom(s, key, seen), f);
      }
    }
  }

  /** Each position in `idx` holds the first row of `s` with its key. */
  ghost predicate FirstOccurrences<T, K>(s: seq<T>, key: T -> K, idx: seq<nat>) {
    forall k, j :: 0 <= k < |idx| && 0 <= j < idx[k] < |s| ==> key(s[j]) != key(s[idx[k]])
  }

  /** The rows `drop_duplicates` keeps are first occurrences, in the order of the table. */
  lemma {:induction false} DedupFromFirstOccurrences<T, K>(s: seq<T>, key: T -> K, seen: set<K>) returns (idx: seq<nat>)
    ensures Embeds(DedupFrom(s, key, seen), s, idx)
    ensures FirstOccurrences(s, key, idx)
    decreases |s|
  {
    if s == [] {
      idx := [];
    } else {
      var seen' := if key(s[0]) in seen then seen else seen + {key(s[0])};
      var r := DedupFrom(s[1..], key, seen');
      var tail := DedupFromFirstOccurrences(s[1..], key, seen');
      EmbedsInTail(r, s, tail);
      idx := if key(s[0]) in seen then Shift(tail) else [0] + Shift(tail);
      FirstOccurrencesInTail(s, key, r, tail);
    }
  }

  /** First occurrences in `s[1..]` whose keys differ from that of `s[0]` are first
      occurrences in `s`, and so is `s[0]` itself. */
  lemma FirstOccurrencesInTail<T, K>(s: seq<T>, key: T -> K, r: seq<T>, tail: seq<nat>)
    requires s != [] && Embeds(r, s[1..], tail) && FirstOccurrences(s[1..], key, tail)
    requires forall x :: x in r ==> key(x) != key(s[0])
    ensures FirstOccurrences(s, key, Shift(tail))
    ensures FirstOccurrences(s, key, [0] + Shift(tail))
  {
    forall k, j | 0 <= k < |tail| && 0 <= j < tail[k] + 1
      ensures key(s[j]) != key(s[tail[k] + 1])
    {
      assert s[tail[k] + 1] == r[k] && r[k] in r;
      if j > 0 {
        assert s[j] == s[1..][j - 1];
      }
    }
    var idx := [0] + Shift(tail);
    assert forall k :: 0 < k < |idx| ==> idx[k] == tail[k - 1] + 1;
  }

  /** `drop_duplicates` yields exactly one row per distinct key: the first occurrence,
      in first-occurrence order. */
  lemma DropDuplicatesFirstOccurrences<T, K>(s: seq<T>, key: T -> K) returns (idx: seq<nat>)
    ensures Embeds(DropDuplicates(s, key), s, idx)
    ensures FirstOccurrences(s, key, idx)
  {
    idx := DedupFromFirstOccurrences(s, key, {});
  }

  /** The right rows whose key matches the left row `l`, in right-table order. */
  function MatchesOf<L, R(==)>(l: L, right: seq<R>, matches: (L, R) -> bool): (m: seq<R>)
    ensures |m| <= |right|
    ensures forall x :: x in m ==> x in right && matches(l, x)
    ensures forall x :: x in right && matches(l, x) ==> x in m
  {
    if right == [] then []
    else
      var rest := MatchesOf(l, right[1..], matches);
      if matches(l, right[0]) then [right[0]] + rest else rest
  }

  /** The matches are the boolean selection of the right table by the key test: every
      matching right row, as often as it occurs and in right-table order. */
  lemma {:induction false} MatchesOfIsSelect<L, R>(l: L, right: seq<R>, matches: (L, R) -> bool)
    ensures MatchesOf(l, right, matches) == Select(right, (x: R) => matches(l, x))
  {
    if right != [] {
      MatchesOfIsSelect(l, right[1..], matches);
    }
  }

  /** The rows `how='left'` makes of one left row: one per matching right row, or a single
      row with the right columns missing when nothing matches. */
  function JoinRow<L, R(==), O>(l: L, right: seq<R>, matches: (L, R) -> bool, join: (L, Option<R>) -> O): (rows: seq<O>)
    ensures |rows| >= 1
    ensures MatchesOf(l, right, matches) == [] ==> rows == [join(l, None)]
    ensures MatchesOf(l, right, matches) != [] ==>
              |rows| == |MatchesOf(l, right, matches)|
              && forall i :: 0 <= i < |rows| ==> rows[i] == join(l, Some(MatchesOf(l, right, matches)[i]))
  {
    var m := MatchesOf(l, right, matches);
    if m == [] then [join(l, None)]
    else seq(|m|, i requires 0 <= i < |m| => join(l, Some(m[i])))
  }

  /** `left.merge(right, how='left')`: the left rows in their order, each expanded by `JoinRow`. */
  function LeftMerge<L, R(==), O>(left: seq<L>, right: seq<R>, matches: (L, R) -> bool, join: (L, Option<R>) -> O): (out: seq<O>)
    ensures |out| >= |left|
  {
    if left == [] then []
    else JoinRow(left[0], right, matches, join) + LeftMerge(left[1..], right, matches, join)
  }

  /** The single right row matching `l`, if there is one. */
  function FirstMatch<L, R(==)>(l: L, right: seq<R>, matches: (L, R) -> bool): (m: Option<R>)
    ensures m.Some? ==> m.value in right && matches(l, m.value)
    ensures m.None? ==> forall x :: x in right ==> !matches(l, x)
  {
    if right == [] then None
    else if matches(l, right[0]) then Some(right[0])
    else FirstMatch(l, right[1..], matches)
  }

  /** Keys that occur at most once in `right` match each left row at most once. */
  ghost predicate UniqueMatches<L, R>(left: seq<L>, right: seq<R>, matches: (L, R) -> bool) {
    forall l, i, j :: l in left && 0 <= i < j < |right| && matches(l, right[i]) ==> !matches(l, right[j])
  }

  lemma {:induction false} SingleMatch<L, R>(l: L, right: seq<R>, matches: (L, R) -> bool)
    requires forall i, j :: 0 <= i < j < |right| && matches(l, right[i]) ==> !matches(l, right[j])
    ensures FirstMatch(l, right, matches).Some? ==> MatchesOf(l, right, matches) == [FirstMatch(l, right, matches).value]
    ensures FirstMatch(l, right, matches).None? ==> MatchesOf(l, right, matches) == []
  {
    if right != [] {
      SingleMatch(l, right[1..], matches);
      if matches(l, right[0]) {
        forall x | x in right[1..] ensures !matches(l, x) {
          var j :| 0 <= j < |right[1..]| && right[1..][j] == x;
          assert right[j + 1] == x;
        }
      }
    }
  }

  /** With keys unique on the right, a left merge is one-to-one and in order: row `i` of
      the result is left row `i` joined with its match, or with nothing. */
  lemma {:induction false} LeftMergeOneToOne<L, R, O>(left: seq<L>, right: seq<R>, matches: (L, R) -> bool, join: (L, Option<R>) -> O)
    requires UniqueMatches(left, right, matches)
    ensures |LeftMerge(left, right, matches, join)| == |left|
    ensures forall i :: 0 <= i < |left| ==>
              LeftMerge(left, right, matches, join)[i] == join(left[i], FirstMatch(left[i], right, matches))
  {
    if left != [] {
      assert UniqueMatches(left[1..], right, matches) by {
        forall l, i, j | l in left[1..] && 0 <= i < j < |right| && matches(l, right[i])
          ensures !matches(l, right[j])
        {
          assert l in left;
        }
      }
      LeftMergeOneToOne(left[1..], right, matches, join);
      assert left[0] in left;
      SingleMatch(left[0], right, matches);
      var out := LeftMerge(left, right, matches, join);
      forall i | 0 <= i < |left|
        ensures out[i] == join(left[i], FirstMatch(left[i], right, matches))
      {
        if i > 0 { assert left[i] == left[1..][i - 1]; }
      }
    }
  }

  /** The first match, when there is one, heads the list of matches. */
  lemma {:induction false} FirstMatchHeadsMatches<L, R>(l: L, right: seq<R>, matches: (L, R) -> bool)
    ensures FirstMatch(l, right, matches).None? <==> MatchesOf(l, right, matches) == []
    ensures FirstMatch(l, right, matches).Some? ==>
              MatchesOf(l, right, matches)[0] == FirstMatch(l, right, matches).value
  {
    if right != [] {
      FirstMatchHeadsMatches(l, right[1..], matches);
    }
  }

  /** A slice of the right operand of `a + b`, read off the concatenation. */
  lemma SliceOfAppend<T>(out: seq<T>, a: seq<T>, b: seq<T>, lo: nat, piece: seq<T>)
    requires out == a + b && lo + |piece| <= |b| && b[lo..lo + |piece|] == piece
    ensures |a| + lo + |piece| <= |out| && out[|a| + lo..|a| + lo + |piece|] == piece
  {
    var w := out[|a| + lo..|a| + lo + |piece|];
    forall k | 0 <= k < |piece| ensures w[k] == piece[k] {
      assert w[k] == b[lo + k] == b[lo..lo + |piece|][k];
    }
  }

  /** The blocks `f(left[0])`, `f(left[1])`, ... laid end to end. */
  ghost function Concat<L, O>(left: seq<L>, f: L -> seq<O>): seq<O> {
    if left == [] then [] else f(left[0]) + Concat(left[1..], f)
  }

  /** `JoinRow` as a function of the left row alone. */
  ghost function JoinRows<L, R, O>(right: seq<R>, matches: (L, R) -> bool, join: (L, Option<R>) -> O): L -> seq<O> {
    l => JoinRow(l, right, matches, join)
  }

  /** A left merge lays the rows `JoinRow` makes of each left row end to end. */
  lemma {:induction false} LeftMergeIsConcat<L, R, O>(left: seq<L>, right: seq<R>, matches: (L, R) -> bool, join: (L, Option<R>) -> O)
    ensures LeftMerge(left, right, matches, join) == Concat(left, JoinRows(right, matches, join))
  {
    if left != [] {
      LeftMergeIsConcat(left[1..], right, matches, join);
    }
  }

  /** Every position of `q` moved on by `d`. */
  function Offset(q: seq<nat>, d: nat): (r: seq<nat>)
    ensures |r| == |q| && forall k :: 0 <= k < |q| ==> r[k] == q[k] + d
  {
    seq(|q|, k requires 0 <= k < |q| => q[k] + d)
  }

  /** Where each block of `Concat(left, f)` starts. */
  ghost function Starts<L, O>(left: seq<L>, f: L -> seq<O>): (p: seq<nat>)
    ensures |p| == |left|
  {
    if left == [] then [] else [0] + Offset(Starts(left[1..], f), |f(left[0])|)
  }

  /** One step into the tail: block `i` of `left` starts where block `i - 1` of `left[1..]`
      does, moved on by the first block. */
  lemma StartsStep<L, O>(left: seq<L>, f: L -> seq<O>, i: nat)
    requires 0 < i < |left|
    ensures Starts(left, f)[i] == Starts(left[1..], f)[i - 1] + |f(left[0])|
  {
    var r := Offset(Starts(left[1..], f), |f(left[0])|);
    assert Starts(left, f) == [0] + r;
    assert ([0] + r)[i] == r[i - 1];
  }

  /** `block` sits in `out` starting at position `start`. */
  ghost predicate BlockAt<O>(out: seq<O>, start: nat, block: seq<O>) {
    start + |block| <= |out| && out[start..start + |block|] == block
  }

  /** A non-empty concatenation is its first block followed by the rest (one unfolding of
      `Concat`, kept apart to keep the proof of `StartsBlockAt` small). */
  lemma ConcatStep<L, O>(left: seq<L>, f: L -> seq<O>)
    requires left != []
    ensures Concat(left, f) == f(left[0]) + Concat(left[1..], f)
  {
  }

  /** Block `i` of a concatenation is `f(left[i])`, read from where it starts. */
  lemma {:induction false} StartsBlockAt<L, O>(left: seq<L>, f: L -> seq<O>, i: nat)
    requires i < |left|
    ensures BlockAt(Concat(left, f), Starts(left, f)[i], f(left[i]))
  {
    ConcatStep(left, f);
    if i == 0 {
      SliceOfAppend(Concat(left, f), [], Concat(left, f), 0, f(left[0]));
    } else {
      assert left[i] == left[1..][i - 1];
      StartsStep(left, f, i);
      StartsBlockAt(left[1..], f, i - 1);
      SliceOfAppend(Concat(left, f), f(left[0]), Concat(left[1..], f), Starts(left[1..], f)[i - 1], f(left[i]));
    }
  }

  /** Every block of a concatenation sits where it starts. */
  lemma StartsBlocks<L, O>(left: seq<L>, f: L -> seq<O>)
    ensures forall i :: 0 <= i < |left| ==> BlockAt(Concat(left, f), Starts(left, f)[i], f(left[i]))
  {
    forall i | 0 <= i < |left| ensures BlockAt(Concat(left, f), Starts(left, f)[i], f(left[i])) {
      StartsBlockAt(left, f, i);
    }
  }

  /** The first block starts at the beginning. */
  lemma StartsHead<L, O>(left: seq<L>, f: L -> seq<O>)
    requires left != []
    ensures Starts(left, f)[0] == 0
  {
    assert Starts(left, f) == [0] + Offset(Starts(left[1..], f), |f(left[0])|);
  }

  /** Each block ends exactly where the next one starts. */
  lemma {:induction false} StartsNext<L, O>(left: seq<L>, f: L -> seq<O>, i: nat)
    requires i + 1 < |left|
    ensures Starts(left, f)[i] + |f(left[i])| == Starts(left, f)[i + 1]
  {
    StartsStep(left, f, i + 1);
    if i == 0 {
      StartsHead(left, f);
      StartsHead(left[1..], f);
    } else {
      assert left[i] == left[1..][i - 1];
      StartsStep(left, f, i);
      StartsNext(left[1..], f, i - 1);
    }
  }

  /** The last block ends where the concatenation ends. */
  lemma {:induction false} StartsEnd<L, O>(left: seq<L>, f: L -> seq<O>)
    requires left != []
    ensures Starts(left, f)[|left| - 1] + |f(left[|left| - 1])| == |Concat(left, f)|
  {
    ConcatStep(left, f);
    if |left| == 1 {
      StartsHead(left, f);
      assert left[1..] == [];
    } else {
      assert left[|left| - 1] == left[1..][|left| - 2];
      StartsStep(left, f, |left| - 1);
      StartsEnd(left[1..], f);
    }
  }

  /** The blocks follow one another in left order without overlapping. */
  lemma {:induction false} StartsOrdered<L, O>(left: seq<L>, f: L -> seq<O>)
    ensures forall i, j :: 0 <= i < j < |left| ==> Starts(left, f)[i] + |f(left[i])| <= Starts(left, f)[j]
  {
    if left != [] {
      StartsOrdered(left[1..], f);
      var q := Starts(left[1..], f);
      var p := Starts(left, f);
      assert p == [0] + Offset(q, |f(left[0])|);
      forall i, j | 0 <= i < j < |left| ensures p[i] + |f(left[i])| <= p[j] {
        assert p[j] == q[j - 1] + |f(left[0])|;
        if i > 0 {
          assert left[i] == left[1..][i - 1];
          assert p[i] == q[i - 1] + |f(left[0])|;
        }
      }
    }
  }

  /** The first row `JoinRow` makes of `l` joins it with its first match, or with nothing. */
  lemma JoinRowHead<L, R, O>(l: L, right: seq<R>, matches: (L, R) -> bool, join: (L, Option<R>) -> O)
    ensures |JoinRow(l, right, matches, join)| >= 1
    ensures JoinRow(l, right, matches, join)[0] == join(l, FirstMatch(l, right, matches))
  {
    FirstMatchHeadsMatches(l, right, matches);
  }

  /** Block `i` of the left merge sits at its start, and the blocks come in left order. */
  lemma LeftMergePlacesBlocks<L, R, O>(left: seq<L>, right: seq<R>, matches: (L, R) -> bool, join: (L, Option<R>) -> O)
    ensures var p := Starts(left, JoinRows(right, matches, join));
            && (forall i :: 0 <= i < |left| ==>
                  BlockAt(LeftMerge(left, right, matches, join), p[i], JoinRow(left[i], right, matches, join)))
            && (forall i, j :: 0 <= i < j < |left| ==> p[i] + |JoinRow(left[i], right, matches, join)| <= p[j])
  {
    var f := JoinRows(right, matches, join);
    var p := Starts(left, f);
    LeftMergeIsConcat(left, right, matches, join);
    StartsBlocks(left, f);
    forall i | 0 <= i < |left| ensures BlockAt(LeftMerge(left, right, matches, join), p[i], JoinRow(left[i], right, matches, join)) {
      assert f(left[i]) == JoinRow(left[i], right, matches, join);
    }
    StartsOrdered(left, f);
  }

  /** The blocks of the left merge leave no gap: the first starts at 0, each ends where the
      next starts, and the last ends at the end of the merge. */
  lemma LeftMergeTilesBlocks<L, R, O>(left: seq<L>, right: seq<R>, matches: (L, R) -> bool, join: (L, Option<R>) -> O)
    ensures var p := Starts(left, JoinRows(right, matches, join));
            && (left != [] ==> p[0] == 0)
            && (forall i, j :: 0 <= i < j < |left| && j == i + 1 ==> p[i] + |JoinRow(left[i], right, matches, join)| == p[j])
            && (left != [] ==>
                  p[|left| - 1] + |JoinRow(left[|left| - 1], right, matches, join)| == |LeftMerge(left, right, matches, join)|)
  {
    var f := JoinRows(right, matches, join);
    var p := Starts(left, f);
    LeftMergeIsConcat(left, right, matches, join);
    forall i, j | 0 <= i < j < |left| && j == i + 1 ensures p[i] + |JoinRow(left[i], right, matches, join)| == p[j] {
      assert f(left[i]) == JoinRow(left[i], right, matches, join);
      StartsNext(left, f, i);
    }
    if left != [] {
      StartsHead(left, f);
      assert f(left[|left| - 1]) == JoinRow(left[|left| - 1], right, matches, join);
      StartsEnd(left, f);
    }
  }

  /** Without any assumption on the keys, the left merge is made of one block per left row,
      laid end to end in left order with nothing before, between or after them: block `i`
      starts at `p[i]` and is exactly `JoinRow(left[i], ...)`, one row per matching right row
      in right order, or one row with nothing. */
  lemma LeftMergeBlocks<L, R, O>(left: seq<L>, right: seq<R>, matches: (L, R) -> bool, join: (L, Option<R>) -> O)
    returns (p: seq<nat>)
    ensures |p| == |left|
    ensures forall i :: 0 <= i < |left| ==>
              BlockAt(LeftMerge(left, right, matches, join), p[i], JoinRow(left[i], right, matches, join))
    ensures forall i, j :: 0 <= i < j < |left| ==> p[i] + |JoinRow(left[i], right, matches, join)| <= p[j]
    ensures left != [] ==> p[0] == 0
    ensures forall i, j :: 0 <= i < j < |left| && j == i + 1 ==> p[i] + |JoinRow(left[i], right, matches, join)| == p[j]
    ensures left != [] ==>
              p[|left| - 1] + |JoinRow(left[|left| - 1], right, matches, join)| == |LeftMerge(left, right, matches, join)|
  {
    LeftMergePlacesBlocks(left, right, matches, join);
    LeftMergeTilesBlocks(left, right, matches, join);
    p := Starts(left, JoinRows(right, matches, join));
  }

  /** Every left row appears in the left merge, in left order, whatever the keys: the row at
      `p[i]` is left row `i` joined with its first match, or with nothing. */
  lemma LeftMergeKeepsLeft<L, R, O>(left: seq<L>, right: seq<R>, matches: (L, R) -> bool, join: (L, Option<R>) -> O)
    returns (p: seq<nat>)
    ensures |p| == |left|
    ensures forall i :: 0 <= i < |left| ==>
              p[i] < |LeftMerge(left, right, matches, join)|
              && LeftMerge(left, right, matches, join)[p[i]] == join(left[i], FirstMatch(left[i], right, matches))
    ensures forall i, j :: 0 <= i < j < |left| ==> p[i] < p[j]
  {
    p := LeftMergeBlocks(left, right, matches, join);
    var out := LeftMerge(left, right, matches, join);
    forall i | 0 <= i < |left|
      ensures p[i] < |out| && out[p[i]] == join(left[i], FirstMatch(left[i], right, matches))
    {
      var block := JoinRow(left[i], right, matches, join);
      JoinRowHead(left[i], right, matches, join);
      assert BlockAt(out, p[i], block);
      assert out[p[i]] == out[p[i]..p[i] + |block|][0];
    }
    forall i, j | 0 <= i < j < |left| ensures p[i] < p[j] {
      JoinRowHead(left[i], right, matches, join);
    }
  }

  // ---- Group sums: `groupby(key)[column].transform('sum')` ----

  /** The sum of `weight` over the rows of `s` whose key is one of `keys`; a row without a
      key (NaN) belongs to no group. */
  function SumWhere<T(==), K(==)>(s: seq<T>, key: T -> Option<K>, weight: T -> real, keys: set<K>): real
  {
    if s == [] then 0.0
    else
      (if key(s[0]).Some? && key(s[0]).value in keys then weight(s[0]) else 0.0)
      + SumWhere(s[1..], key, weight, keys)
  }

  /** The sum of the group of rows whose key is `k`. */
  function GroupSum<T(==), K(==)>(s: seq<T>, key: T -> Option<K>, weight: T -> real, k: K): real {
    SumWhere(s, key, weight, {k})
  }

  /** The sum of `weight` over every row that has a key. */
  function KeyedTotal<T(==), K(==)>(s: seq<T>, key: T -> Option<K>, weight: T -> real): real {
    if s == [] then 0.0
    else (if key(s[0]).Some? then weight(s[0]) else 0.0) + KeyedTotal(s[1..], key, weight)
  }

  /** The key values present in `s`. */
  function KeysOf<T(==), K(==)>(s: seq<T>, key: T -> Option<K>): set<K> {
    set x | x in s && key(x).Some? :: key(x).value
  }

  /** Summing group by group over disjoint key sets adds up. */
  lemma {:induction false} SumWhereSplit<T, K>(s: seq<T>, key: T -> Option<K>, weight: T -> real, keys: set<K>, k: K)
    requires k !in keys
    ensures SumWhere(s, key, weight, keys + {k}) == SumWhere(s, key, weight, keys) + GroupSum(s, key, weight, k)
  {
    if s != [] {
      SumWhereSplit(s[1..], key, weight, keys, k);
    }
  }

  /** Summing over a key set that covers every key present gives the total of all keyed rows. */
  lemma {:induction false} SumWhereCovering<T, K>(s: seq<T>, key: T -> Option<K>, weight: T -> real, keys: set<K>)
    requires KeysOf(s, key) <= keys
    ensures SumWhere(s, key, weight, keys) == KeyedTotal(s, key, weight)
  {
    if s != [] {
      assert s[0] in s;
      assert KeysOf(s[1..], key) <= KeysOf(s, key) by {
        forall x | x in s[1..] ensures x in s { }
      }
      SumWhereCovering(s[1..], key, weight, keys);
    }
  }

  /** Chunking: the group sum over a table cut in two parts is the sum of the parts' group sums. */
  lemma {:induction false} SumWhereAppend<T, K>(a: seq<T>, b: seq<T>, key: T -> Option<K>, weight: T -> real, keys: set<K>)
    ensures SumWhere(a + b, key, weight, keys) == SumWhere(a, key, weight, keys) + SumWhere(b, key, weight, keys)
  {
    if a == [] {
      assert a + b == b;
    } else {
      assert (a + b)[1..] == a[1..] + b;
      SumWhereAppend(a[1..], b, key, weight, keys);
    }
  }

  /** The sum, over the rows of `t` that have a key, of the group sums those keys have in `u`. */
  function SumOfGroupSums<T(==), K(==)>(t: seq<T>, u: seq<T>, key: T -> Option<K>, weight: T -> real): real {
    if t == [] then 0.0
    else
      (if key(t[0]).Some? then GroupSum(u, key, weight, key(t[0]).value) else 0.0)
      + SumOfGroupSums(t[1..], u, key, weight)
  }

  /** The present key values of a set of optional keys. */
  function PresentValues<K(==)>(seen: set<Option<K>>): set<K> {
    set o | o in seen && o.Some? :: o.value
  }

  lemma {:induction false} DedupGroupSums<T, K>(s: seq<T>, u: seq<T>, key: T -> Option<K>, weight: T -> real, seen: set<Option<K>>)
    ensures SumOfGroupSums(DedupFrom(s, key, seen), u, key, weight)
            == SumWhere(u, key, weight, KeysOf(s, key) - PresentValues(seen))
    decreases |s|
  {
    if s == [] {
      assert KeysOf(s, key) - PresentValues(seen) == {};
      SumWhereEmpty(u, key, weight);
    } else {
      var x := s[0];
      assert s == [x] + s[1..];
      var tailKeys := KeysOf(s[1..], key);
      assert KeysOf(s, key) == tailKeys + (if key(x).Some? then {key(x).value} else {});
      if key(x) in seen {
        DedupGroupSums(s[1..], u, key, weight, seen);
        assert KeysOf(s, key) - PresentValues(seen) == tailKeys - PresentValues(seen);
      } else {
        var seen' := seen + {key(x)};
        DedupGroupSums(s[1..], u, key, weight, seen');
        if key(x).Some? {
          var k := key(x).value;
          assert PresentValues(seen') == PresentValues(seen) + {k};
          var rest := tailKeys - PresentValues(seen');
          assert KeysOf(s, key) - PresentValues(seen) == rest + {k};
          SumWhereSplit(u, key, weight, rest, k);
        } else {
          assert PresentValues(seen') == PresentValues(seen);
          assert KeysOf(s, key) - PresentValues(seen) == tailKeys - PresentValues(seen');
        }
      }
    }
  }

  lemma {:induction false} SumWhereEmpty<T, K>(u: seq<T>, key: T -> Option<K>, weight: T -> real)
    ensures SumWhere(u, key, weight, {}) == 0.0
  {
    if u != [] {
      SumWhereEmpty(u[1..], key, weight);
    }
  }

  /** Nothing is lost or counted twice: summing each distinct key's group sum once, over
      the de-duplicated table, gives the total of every row that has a key. */
  lemma GroupSumsConserveTotal<T, K>(s: seq<T>, key: T -> Option<K>, weight: T -> real)
    ensures SumOfGroupSums(DropDuplicates(s, key), s, key, weight) == KeyedTotal(s, key, weight)
  {
    DedupGroupSums(s, s, key, weight, {});
    assert KeysOf(s, key) - PresentValues<K>({}) == KeysOf(s, key);
    SumWhereCovering(s, key, weight, KeysOf(s, key));
  }

  /** The sum of `weight` over every row. */
  function Total<T>(s: seq<T>, weight: T -> real): real {
    if s == [] then 0.0 else weight(s[0]) + Total(s[1..], weight)
  }

  /** A group sum is the plain total of the rows `df[df[key] == k]`, whatever the mask
      `inGroup` that selects them. */
  lemma {:induction false} GroupSumIsFilteredTotal<T, K>(s: seq<T>, key: T -> Option<K>, weight: T -> real, k: K, inGroup: T -> bool)
    requires forall x :: x in s ==> (inGroup(x) <==> key(x) == Some(k))
    ensures GroupSum(s, key, weight, k) == Total(Select(s, inGroup), weight)
  {
    if s != [] {
      assert s[0] in s;
      forall x | x in s[1..] ensures inGroup(x) <==> key(x) == Some(k) {
        assert x in s;
      }
      GroupSumIsFilteredTotal(s[1..], key, weight, k, inGroup);
    }
  }
}
