/** The default order of `Array.prototype.sort`: strings compared by their UTF-16 code units. */
module StringOrder {

  // ---------- UTF-16 ----------

  /** One code unit for a character below U+10000, a surrogate pair for the others. */
  function Units(c: char): (u: seq<nat>)
    ensures u != []
  {
    var n := c as int;
    if n < 0x1_0000 then [n]
    else [0xD800 + (n - 0x1_0000) / 0x400, 0xDC00 + (n - 0x1_0000) % 0x400]
  }

  function Encode(s: string): seq<nat> {
    if s == "" then [] else Units(s[0]) + Encode(s[1..])
  }

  /** Characters are told apart by the start of the encoding: no encoding is a prefix of another. */
  lemma UnitsPrefixFree(a: char, b: char, restA: seq<nat>, restB: seq<nat>)
    requires Units(a) + restA == Units(b) + restB
    ensures a == b && restA == restB
  {
    var ua, ub := Units(a), Units(b);
    var whole := ua + restA;
    assert whole[0] == ua[0] == ub[0];
    assert |ua| == |ub|;
    if |ua| == 2 {
      assert whole[1] == ua[1] == ub[1];
      assert a as int == b as int;
    }
    assert restA == whole[|ua|..] == restB;
  }

  lemma {:induction false} EncodeInjective(a: string, b: string)
    requires Encode(a) == Encode(b)
    ensures a == b
  {
    if a == "" || b == "" {
    } else {
      UnitsPrefixFree(a[0], b[0], Encode(a[1..]), Encode(b[1..]));
      EncodeInjective(a[1..], b[1..]);
      assert a == [a[0]] + a[1..] && b == [b[0]] + b[1..];
    }
  }

  // ---------- Lexicographic order ----------

  predicate LexLess(a: seq<nat>, b: seq<nat>) {
    b != [] && (a == [] || a[0] < b[0] || (a[0] == b[0] && LexLess(a[1..], b[1..])))
  }

  lemma {:induction false} LexTransitive(a: seq<nat>, b: seq<nat>, c: seq<nat>)
    requires LexLess(a, b) && LexLess(b, c)
    ensures LexLess(a, c)
  {
    if a != [] && a[0] == b[0] == c[0] {
      LexTransitive(a[1..], b[1..], c[1..]);
    }
  }

  lemma {:induction false} LexTrichotomy(a: seq<nat>, b: seq<nat>)
    ensures !(LexLess(a, b) && LexLess(b, a))
    ensures LexLess(a, b) || LexLess(b, a) || a == b
    ensures a == b ==> !LexLess(a, b)
  {
    if a != [] && b != [] && a[0] == b[0] {
      LexTrichotomy(a[1..], b[1..]);
      assert a == [a[0]] + a[1..] && b == [b[0]] + b[1..];
    }
  }

  /** `a < b` on JavaScript strings. */
  predicate Precedes(a: string, b: string) {
    LexLess(Encode(a), Encode(b))
  }

  /** `Precedes` is a strict total order; distinct strings never compare as equal. */
  lemma PrecedesTrichotomy(a: string, b: string)
    ensures !(Precedes(a, b) && Precedes(b, a))
    ensures Precedes(a, b) || Precedes(b, a) || a == b
    ensures !Precedes(a, a)
  {
    LexTrichotomy(Encode(a), Encode(b));
    LexTrichotomy(Encode(a), Encode(a));
    if Encode(a) == Encode(b) {
      EncodeInjective(a, b);
    }
  }

  lemma PrecedesTransitive(a: string, b: string, c: string)
    ensures Precedes(a, b) && Precedes(b, c) ==> Precedes(a, c)
    ensures !Precedes(b, a) && !Precedes(c, b) ==> !Precedes(c, a)
  {
    if Precedes(a, b) && Precedes(b, c) {
      LexTransitive(Encode(a), Encode(b), Encode(c));
    }
    if !Precedes(b, a) && !Precedes(c, b) && Precedes(c, a) {
      PrecedesTrichotomy(a, b);
      PrecedesTrichotomy(b, c);
      if a != b && b != c {
        LexTransitive(Encode(a), Encode(b), Encode(c));
        LexTrichotomy(Encode(a), Encode(c));
      }
    }
  }

  /** Where a character stands in code unit order: surrogate pairs go between U+D7FF and U+E000. */
  function Rank(c: char): nat {
    var n := c as int;
    if n < 0xD800 then n else if n < 0x1_0000 then n + 0x10_0000 else n - 0x2800
  }

  lemma RankDecides(x: char, y: char, u: seq<nat>, v: seq<nat>)
    requires x != y
    ensures LexLess(Units(x) + u, Units(y) + v) <==> Rank(x) < Rank(y)
  {
    var a, b := Units(x) + u, Units(y) + v;
    assert a[0] == Units(x)[0] && b[0] == Units(y)[0];
    if |Units(x)| == 2 && |Units(y)| == 2 {
      assert a[1..][0] == Units(x)[1] && b[1..][0] == Units(y)[1];
    }
  }

  lemma {:induction false} SharedUnits(u: seq<nat>, a: seq<nat>, b: seq<nat>)
    ensures LexLess(u + a, u + b) <==> LexLess(a, b)
  {
    if u == [] {
      assert u + a == a && u + b == b;
    } else {
      SharedUnits(u[1..], a, b);
      assert (u + a)[1..] == u[1..] + a && (u + b)[1..] == u[1..] + b;
    }
  }

  /** How many leading characters two strings share. */
  function Shared(a: string, b: string): (k: nat)
    ensures k <= |a| && k <= |b| && a[..k] == b[..k]
    ensures k < |a| && k < |b| ==> a[k] != b[k]
  {
    if a == "" || b == "" || a[0] != b[0] then 0
    else
      var k := Shared(a[1..], b[1..]) + 1;
      assert a[..k] == [a[0]] + a[1..][..k - 1] && b[..k] == [b[0]] + b[1..][..k - 1];
      k
  }

  /**
   * The encoded comparison refines a plain one on characters: a proper prefix comes first, and otherwise the first
   * differing characters decide, by rank.
   */
  lemma {:induction false} PrecedesByRank(a: string, b: string)
    ensures var k := Shared(a, b);
            Precedes(a, b) <==> k < |b| && (k == |a| || Rank(a[k]) < Rank(b[k]))
  {
    if a == "" || b == "" {
    } else if a[0] != b[0] {
      RankDecides(a[0], b[0], Encode(a[1..]), Encode(b[1..]));
    } else {
      PrecedesByRank(a[1..], b[1..]);
      SharedUnits(Units(a[0]), Encode(a[1..]), Encode(b[1..]));
    }
  }

  // ---------- Sorted lists ----------

  predicate Sorted(names: seq<string>) {
    forall i, j :: 0 <= i < j < |names| ==> !Precedes(names[j], names[i])
  }

  predicate Distinct(names: seq<string>) {
    forall i, j :: 0 <= i < j < |names| ==> names[i] != names[j]
  }

  predicate StrictlyAscending(names: seq<string>) {
    forall i, j :: 0 <= i < j < |names| ==> Precedes(names[i], names[j])
  }

  lemma SortedDistinctAscends(names: seq<string>)
    requires Sorted(names) && Distinct(names)
    ensures StrictlyAscending(names)
  {
    forall i, j | 0 <= i < j < |names| ensures Precedes(names[i], names[j]) {
      PrecedesTrichotomy(names[i], names[j]);
    }
  }

  lemma SortedHeadIsLeast(names: seq<string>, x: string)
    requires Sorted(names) && x in names
    ensures !Precedes(x, names[0])
  {
    PrecedesTrichotomy(x, x);
  }

  lemma LeastHeadsAgree(a: seq<string>, b: seq<string>)
    requires Sorted(a) && Sorted(b) && multiset(a) == multiset(b) && a != [] && b != []
    ensures a[0] == b[0]
  {
    assert a[0] in multiset(b) && b[0] in multiset(a);
    SortedHeadIsLeast(b, a[0]);
    SortedHeadIsLeast(a, b[0]);
    PrecedesTrichotomy(a[0], b[0]);
  }

  lemma TailMultiset(a: seq<string>)
    requires a != []
    ensures multiset(a[1..]) == multiset(a) - multiset{a[0]}
  {
    assert a == [a[0]] + a[1..];
  }

  /** A list has one sorted permutation: whatever sorting algorithm runs, the outcome is the same. */
  lemma {:induction false} SortedPermutationUnique(a: seq<string>, b: seq<string>)
    requires Sorted(a) && Sorted(b) && multiset(a) == multiset(b)
    ensures a == b
  {
    assert |multiset(a)| == |a| && |multiset(b)| == |b|;
    if a == [] {
    } else {
      LeastHeadsAgree(a, b);
      TailMultiset(a);
      TailMultiset(b);
      SortedPermutationUnique(a[1..], b[1..]);
      assert a == [a[0]] + a[1..] && b == [b[0]] + b[1..];
    }
  }

  lemma DistinctByMultiset(a: seq<string>, b: seq<string>)
    requires multiset(a) == multiset(b) && Distinct(a)
    ensures Distinct(b)
  {
    forall i, j | 0 <= i < j < |b| ensures b[i] != b[j] {
      if b[i] == b[j] {
        TwiceInMultiset(b, i, j);
        OnceInMultiset(a, b[i]);
      }
    }
  }

  lemma TwiceInMultiset(b: seq<string>, i: nat, j: nat)
    requires i < j < |b| && b[i] == b[j]
    ensures multiset(b)[b[i]] >= 2
  {
    assert b == b[..i] + [b[i]] + b[i + 1..j] + [b[j]] + b[j + 1..];
  }

  lemma {:induction false} OnceInMultiset(a: seq<string>, x: string)
    requires Distinct(a)
    ensures multiset(a)[x] <= 1
  {
    if a == [] {
    } else {
      OnceInMultiset(a[1..], x);
      assert a == [a[0]] + a[1..];
      if a[0] == x {
        assert x !in a[1..];
      }
    }
  }

  // ---------- Sorting ----------

  function Insert(x: string, names: seq<string>): (r: seq<string>)
    requires Sorted(names)
    ensures Sorted(r) && multiset(r) == multiset(names) + multiset{x}
  {
    if names == [] || Precedes(x, names[0]) then
      InsertInFront(x, names);
      [x] + names
    else
      var rest := Insert(x, names[1..]);
      InsertBehind(x, names, rest);
      [names[0]] + rest
  }

  lemma InsertInFront(x: string, names: seq<string>)
    requires Sorted(names) && (names == [] || Precedes(x, names[0]))
    ensures Sorted([x] + names)
  {
    forall j | 0 <= j < |names| ensures !Precedes(names[j], x) {
      PrecedesTrichotomy(x, names[0]);
      PrecedesTrichotomy(names[0], names[0]);
      PrecedesTransitive(x, names[0], names[j]);
    }
  }

  lemma InsertBehind(x: string, names: seq<string>, rest: seq<string>)
    requires Sorted(names) && names != [] && !Precedes(x, names[0])
    requires Sorted(rest) && multiset(rest) == multiset(names[1..]) + multiset{x}
    ensures Sorted([names[0]] + rest)
    ensures multiset([names[0]] + rest) == multiset(names) + multiset{x}
  {
    assert names == [names[0]] + names[1..];
    forall j | 0 <= j < |rest| ensures !Precedes(rest[j], names[0]) {
      assert rest[j] in multiset(rest);
      if rest[j] != x {
        assert rest[j] in names[1..];
      }
    }
  }

  /** The sorted permutation of a list. */
  function SortNames(names: seq<string>): (r: seq<string>)
    ensures Sorted(r) && multiset(r) == multiset(names)
  {
    if names == [] then []
    else
      assert names == [names[0]] + names[1..];
      Insert(names[0], SortNames(names[1..]))
  }

  /** `names.sort()`: in place, and whatever the order of comparisons, equal to `SortNames`. */
  method SortInPlace(names: array<string>)
    modifies names
    ensures Sorted(names[..]) && multiset(names[..]) == multiset(old(names[..]))
    ensures names[..] == SortNames(old(names[..]))
  {
    var i := 0;
    while i < names.Length
      invariant 0 <= i <= names.Length
      invariant Sorted(names[..i])
      invariant multiset(names[..]) == multiset(old(names[..]))
    {
      Sink(names, i);
      i := i + 1;
    }
    assert names[..] == names[..names.Length];
    SortedPermutationUnique(names[..], SortNames(old(names[..])));
  }

  /** Sorted up to position i, but for the element at position j, which belongs before those above it. */
  predicate SortedBut(names: seq<string>, i: nat, j: nat)
    requires i < |names|
  {
    forall m, n :: 0 <= m < n <= i && n != j ==> !Precedes(names[n], names[m])
  }

  function Swapped(names: seq<string>, j: nat): seq<string>
    requires 0 < j < |names|
  {
    names[j - 1 := names[j]][j := names[j - 1]]
  }

  lemma SwapKeepsSortedBut(names: seq<string>, i: nat, j: nat)
    requires 0 < j <= i < |names| && SortedBut(names, i, j) && Precedes(names[j], names[j - 1])
    ensures SortedBut(Swapped(names, j), i, j - 1)
  {
    PrecedesTrichotomy(names[j], names[j - 1]);
    var swapped := Swapped(names, j);
    forall m, n | 0 <= m < n <= i && n != j - 1 ensures !Precedes(swapped[n], swapped[m]) {
      if n == j && m < j - 1 {
        assert !Precedes(names[j - 1], names[m]);
      } else if n > j {
        assert !Precedes(names[n], names[if m == j then j - 1 else if m == j - 1 then j else m]);
      } else if n < j - 1 {
        assert !Precedes(names[n], names[m]);
      }
    }
  }

  lemma SunkIsSorted(names: seq<string>, i: nat, j: nat)
    requires j <= i < |names| && SortedBut(names, i, j)
    requires j == 0 || !Precedes(names[j], names[j - 1])
    ensures Sorted(names[..i + 1])
  {
    forall m | 0 <= m < j ensures !Precedes(names[j], names[m]) {
      PrecedesTransitive(names[m], names[j - 1], names[j]);
    }
  }

  method SwapDown(names: array<string>, j: nat)
    requires 0 < j < names.Length
    modifies names
    ensures names[..] == Swapped(old(names[..]), j)
    ensures multiset(names[..]) == multiset(old(names[..]))
  {
    names[j - 1], names[j] := names[j], names[j - 1];
  }

  /** One round of insertion sort: moves names[i] down to its place in the sorted prefix. */
  method Sink(names: array<string>, i: nat)
    requires i < names.Length && Sorted(names[..i])
    modifies names
    ensures Sorted(names[..i + 1])
    ensures multiset(names[..]) == multiset(old(names[..]))
  {
    var j := i;
    while j > 0 && Precedes(names[j], names[j - 1])
      invariant 0 <= j <= i
      invariant SortedBut(names[..], i, j)
      invariant multiset(names[..]) == multiset(old(names[..]))
    {
      SwapKeepsSortedBut(names[..], i, j);
      SwapDown(names, j);
      j := j - 1;
    }
    SunkIsSorted(names[..], i, j);
    assert names[..][..i + 1] == names[..i + 1];
  }
}
