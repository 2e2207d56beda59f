/** The ordering the preview page gives the fetched reference styles:
    styles in the user's hair colour first, then by hair colour, with
    `Array.prototype.sort`, which is stable, keeping equal styles in their
    fetched order. */
module PreviewOrder {
  import opened ReferenceBase

  /** `a.localeCompare(b)`, comparing code units lexicographically. */
  function CompareStrings(a: string, b: string): (r: int)
    ensures -1 <= r <= 1
  {
    if a == [] && b == [] then 0
    else if a == [] then -1
    else if b == [] then 1
    else if a[0] < b[0] then -1
    else if a[0] > b[0] then 1
    else CompareStrings(a[1..], b[1..])
  }

  lemma {:induction false} CompareStringsZero(a: string, b: string)
    ensures CompareStrings(a, b) == 0 <==> a == b
  {
    if a != [] && b != [] && a[0] == b[0] {
      CompareStringsZero(a[1..], b[1..]);
      if a[1..] == b[1..] {
        assert a == [a[0]] + a[1..] && b == [b[0]] + b[1..];
      }
    }
  }

  lemma {:induction false} CompareStringsAntisymmetric(a: string, b: string)
    ensures CompareStrings(a, b) == -CompareStrings(b, a)
  {
    if a != [] && b != [] && a[0] == b[0] {
      CompareStringsAntisymmetric(a[1..], b[1..]);
    }
  }

  lemma {:induction false} CompareStringsTransitive(a: string, b: string, c: string)
    requires CompareStrings(a, b) <= 0 && CompareStrings(b, c) <= 0
    ensures CompareStrings(a, c) <= 0
  {
    if a != [] && b != [] && c != [] && a[0] == b[0] && b[0] == c[0] {
      CompareStringsTransitive(a[1..], b[1..], c[1..]);
    }
  }

  /** 1 for a style in the user's hair colour, 0 otherwise. */
  function Score(r: ReferenceStyle, userHairColor: string): int {
    if r.haircolor == userHairColor then 1 else 0
  }

  /** The comparator passed to `data.sort`: a style in the user's hair
      colour goes before one that is not, and styles on the same side are
      compared by hair colour. */
  function Compare(a: ReferenceStyle, b: ReferenceStyle, userHairColor: string): (r: int)
    ensures a.haircolor == userHairColor && b.haircolor != userHairColor ==> r < 0
    ensures a.haircolor != userHairColor && b.haircolor == userHairColor ==> r > 0
    ensures (a.haircolor == userHairColor) == (b.haircolor == userHairColor) ==>
              r == CompareStrings(a.haircolor, b.haircolor)
  {
    var scoreA := Score(a, userHairColor);
    var scoreB := Score(b, userHairColor);
    if scoreA != scoreB then scoreB - scoreA
    else CompareStrings(a.haircolor, b.haircolor)
  }

  /** The comparator returns 0 exactly for styles of the same hair colour. */
  lemma CompareZeroIffSameHairColor(a: ReferenceStyle, b: ReferenceStyle, u: string)
    ensures Compare(a, b, u) == 0 <==> a.haircolor == b.haircolor
  {
    CompareStringsZero(a.haircolor, b.haircolor);
  }

  /** The comparator is antisymmetric. */
  lemma CompareAntisymmetric(a: ReferenceStyle, b: ReferenceStyle, u: string)
    ensures Compare(a, b, u) == -Compare(b, a, u)
  {
    CompareStringsAntisymmetric(a.haircolor, b.haircolor);
  }

  /** The comparator is transitive, so it is a consistent comparison and
      the stable sort it drives has a single result. */
  lemma CompareTransitive(a: ReferenceStyle, b: ReferenceStyle, c: ReferenceStyle, u: string)
    requires Compare(a, b, u) <= 0 && Compare(b, c, u) <= 0
    ensures Compare(a, c, u) <= 0
  {
    if Score(a, u) == Score(b, u) && Score(b, u) == Score(c, u) {
      CompareStringsTransitive(a.haircolor, b.haircolor, c.haircolor);
    }
  }

  /** Inserting `x` into sorted styles: it goes after every style that does
      not compare greater than it. */
  function Insert(sorted: seq<ReferenceStyle>, x: ReferenceStyle, u: string): (r: seq<ReferenceStyle>)
    ensures |r| == |sorted| + 1
  {
    if sorted == [] then [x]
    else if Compare(sorted[|sorted| - 1], x, u) <= 0 then sorted + [x]
    else Insert(sorted[..|sorted| - 1], x, u) + [sorted[|sorted| - 1]]
  }

  /** No style compares greater than a later one. */
  ghost predicate Ordered(s: seq<ReferenceStyle>, u: string) {
    forall i, j :: 0 <= i < j < |s| ==> Compare(s[i], s[j], u) <= 0
  }

  /** The result of the stable sort with the comparator. */
  function SortedReferences(s: seq<ReferenceStyle>, u: string): (r: seq<ReferenceStyle>)
    ensures |r| == |s|
  {
    if s == [] then [] else Insert(SortedReferences(s[..|s| - 1], u), s[|s| - 1], u)
  }

  /** The styles of hair colour `h`, in order. */
  function WithHairColor(s: seq<ReferenceStyle>, h: string): seq<ReferenceStyle> {
    if s == [] then []
    else WithHairColor(s[..|s| - 1], h) + (if s[|s| - 1].haircolor == h then [s[|s| - 1]] else [])
  }

  lemma {:induction false} InsertPermutes(t: seq<ReferenceStyle>, x: ReferenceStyle, u: string)
    ensures multiset(Insert(t, x, u)) == multiset(t) + multiset{x}
  {
    if t != [] && Compare(t[|t| - 1], x, u) > 0 {
      InsertPermutes(t[..|t| - 1], x, u);
      assert t == t[..|t| - 1] + [t[|t| - 1]];
    }
  }

  lemma {:induction false} InsertOrdered(t: seq<ReferenceStyle>, x: ReferenceStyle, u: string)
    requires Ordered(t, u)
    ensures Ordered(Insert(t, x, u), u)
  {
    if t == [] {
    } else if Compare(t[|t| - 1], x, u) <= 0 {
      var r := t + [x];
      forall i, j | 0 <= i < j < |r| ensures Compare(r[i], r[j], u) <= 0 {
        if j == |t| && i < |t| - 1 {
          CompareTransitive(t[i], t[|t| - 1], x, u);
        }
      }
    } else {
      var init, last := t[..|t| - 1], t[|t| - 1];
      InsertOrdered(init, x, u);
      InsertPermutes(init, x, u);
      var left := Insert(init, x, u);
      var r := left + [last];
      CompareAntisymmetric(last, x, u);
      forall i, j | 0 <= i < j < |r| ensures Compare(r[i], r[j], u) <= 0 {
        if j == |left| {
          assert r[i] in multiset(left);
          if r[i] != x {
            assert r[i] in init;
          }
        }
      }
    }
  }

  lemma {:induction false} InsertStable(t: seq<ReferenceStyle>, x: ReferenceStyle, u: string, h: string)
    ensures WithHairColor(Insert(t, x, u), h)
         == WithHairColor(t, h) + (if x.haircolor == h then [x] else [])
  {
    if t == [] {
      assert [x][..0] == [];
    } else if Compare(t[|t| - 1], x, u) <= 0 {
      assert (t + [x])[..|t|] == t;
    } else {
      var init, last := t[..|t| - 1], t[|t| - 1];
      InsertStable(init, x, u, h);
      var left := Insert(init, x, u);
      assert (left + [last])[..|left|] == left;
      if x.haircolor == h && last.haircolor == h {
        CompareZeroIffSameHairColor(last, x, u);
      }
    }
  }

  /** The sorted list is a permutation of the fetched list. */
  lemma {:induction false} SortedIsPermutation(s: seq<ReferenceStyle>, u: string)
    ensures multiset(SortedReferences(s, u)) == multiset(s)
  {
    if s != [] {
      SortedIsPermutation(s[..|s| - 1], u);
      InsertPermutes(SortedReferences(s[..|s| - 1], u), s[|s| - 1], u);
      assert s == s[..|s| - 1] + [s[|s| - 1]];
    }
  }

  /** The sorted list respects the comparator. */
  lemma {:induction false} SortedIsOrdered(s: seq<ReferenceStyle>, u: string)
    ensures Ordered(SortedReferences(s, u), u)
  {
    if s != [] {
      SortedIsOrdered(s[..|s| - 1], u);
      InsertOrdered(SortedReferences(s[..|s| - 1], u), s[|s| - 1], u);
    }
  }

  /** The sort is stable: the styles of each hair colour keep their
      fetched relative order. */
  lemma {:induction false} SortedIsStable(s: seq<ReferenceStyle>, u: string, h: string)
    ensures WithHairColor(SortedReferences(s, u), h) == WithHairColor(s, h)
  {
    if s != [] {
      SortedIsStable(s[..|s| - 1], u, h);
      InsertStable(SortedReferences(s[..|s| - 1], u), s[|s| - 1], u, h);
    }
  }

  /** Every style in the user's hair colour comes before every style in
      another colour, and within each of the two groups hair colours are in
      ascending order. */
  lemma SortedGroups(s: seq<ReferenceStyle>, u: string, i: int, j: int)
    requires 0 <= i < j < |s|
    ensures SortedReferences(s, u)[j].haircolor == u ==> SortedReferences(s, u)[i].haircolor == u
    ensures Score(SortedReferences(s, u)[i], u) == Score(SortedReferences(s, u)[j], u)
            ==> CompareStrings(SortedReferences(s, u)[i].haircolor, SortedReferences(s, u)[j].haircolor) <= 0
  {
    SortedIsOrdered(s, u);
    var r := SortedReferences(s, u);
    assert Compare(r[i], r[j], u) <= 0;
  }

  /** `data.sort(comparator)`, in place; a stable insertion sort computes
      the same order as the engine's stable sort. */
  method SortReferences(a: array<ReferenceStyle>, userHairColor: string)
    modifies a
    ensures a[..] == SortedReferences(old(a[..]), userHairColor)
    ensures multiset(a[..]) == multiset(old(a[..]))
  {
    ghost var input := a[..];
    var i := 0;
    while i < a.Length
      invariant 0 <= i <= a.Length
      invariant a[..i] == SortedReferences(input[..i], userHairColor)
      invariant a[i..] == input[i..]
    {
      InsertInPlace(a, i, userHairColor);
      assert input[..i + 1][..i] == input[..i];
      assert a[i + 1..] == input[i + 1..];
      i := i + 1;
    }
    assert input[..a.Length] == input;
    SortedIsPermutation(input, userHairColor);
  }

  /** `x` lands right after the last element that does not compare
      greater than it, when every later one does. */
  lemma {:induction false} InsertAt(t: seq<ReferenceStyle>, x: ReferenceStyle, u: string, j: int)
    requires 0 <= j <= |t|
    requires j == 0 || Compare(t[j - 1], x, u) <= 0
    requires forall k :: j <= k < |t| ==> Compare(t[k], x, u) > 0
    ensures Insert(t, x, u) == t[..j] + [x] + t[j..]
    decreases |t|
  {
    if j == |t| {
      assert t[..j] == t;
    } else {
      var front := t[..|t| - 1];
      InsertAt(front, x, u, j);
      assert front[..j] == t[..j];
      assert front[j..] + [t[|t| - 1]] == t[j..];
    }
  }

  /** A sequence that is `t` with `x` placed at `j`. */
  lemma Placed(s: seq<ReferenceStyle>, t: seq<ReferenceStyle>, x: ReferenceStyle, j: int)
    requires 0 <= j <= |t| && |s| == |t| + 1
    requires forall k :: 0 <= k < j ==> s[k] == t[k]
    requires s[j] == x
    requires forall k :: j < k < |s| ==> s[k] == t[k - 1]
    ensures s == t[..j] + [x] + t[j..]
  {
    var expected := t[..j] + [x] + t[j..];
    forall k | 0 <= k < |s|
      ensures s[k] == expected[k]
    {
      if k > j {
        assert expected[k] == t[j..][k - j - 1];
      }
    }
  }

  /** One step of the sort: moves `a[i]` left past every element that
      compares greater than it. */
  method InsertInPlace(a: array<ReferenceStyle>, i: int, userHairColor: string)
    requires 0 <= i < a.Length
    modifies a
    ensures a[..i + 1] == Insert(old(a[..i]), old(a[i]), userHairColor)
    ensures a[i + 1..] == old(a[i + 1..])
  {
    var x := a[i];
    ghost var sorted := a[..i];
    var j := i;
    while j > 0 && Compare(a[j - 1], x, userHairColor) > 0
      invariant 0 <= j <= i
      invariant forall k :: 0 <= k < j ==> a[k] == sorted[k]
      invariant forall k :: j < k <= i ==> a[k] == sorted[k - 1]
      invariant forall k :: i < k < a.Length ==> a[k] == old(a[k])
      invariant forall k :: j <= k < i ==> Compare(sorted[k], x, userHairColor) > 0
    {
      a[j] := a[j - 1];
      j := j - 1;
    }
    a[j] := x;
    InsertAt(sorted, x, userHairColor, j);
    Placed(a[..i + 1], sorted, x, j);
  }
}
