/**
 The feature list of a product feature set, as values: the rows the values card
 shows, and the three list operations the card applies to them (filtering,
 renumbering positions 1..N, and the stable sort by position).
 */
module FeatureList {

  type FeatureId = string

  /** One row of a feature set. `kind` is the row's `type` (a Dafny keyword). */
  datatype Feature = Feature(id: FeatureId, name: string, kind: string, position: int)

  /** Positions never decrease along the list. */
  predicate Sorted(s: seq<Feature>)
  {
    forall i, j :: 0 <= i < j < |s| ==> s[i].position <= s[j].position
  }

  /** `r` is obtained from `s` by deleting elements: the survivors keep their relative order. */
  predicate IsSubsequence<T(==)>(r: seq<T>, s: seq<T>)
    decreases |s|
  {
    if s == [] then r == []
    else (r != [] && r[0] == s[0] && IsSubsequence(r[1..], s[1..])) || IsSubsequence(r, s[1..])
  }

  // ---------------------------------------------------------------------------
  // Filtering (Array.prototype.filter)
  // ---------------------------------------------------------------------------

  /** The elements of `s` that `keep` accepts, in their original order. */
  function Filter<T>(s: seq<T>, keep: T -> bool): (r: seq<T>)
    ensures |r| <= |s|
  {
    if s == [] then []
    else if keep(s[0]) then [s[0]] + Filter(s[1..], keep)
    else Filter(s[1..], keep)
  }

  /** A row survives a bulk delete when its id is not one of the selected keys. */
  function Unselected(keys: set<FeatureId>): Feature -> bool
  {
    (f: Feature) => f.id !in keys
  }

  /**
   A row is a search hit when its name or its type matches the term. `matches`
   stands for String.prototype.match; the empty pattern matches every string.
   */
  function Hit(matches: (string, string) -> bool, term: string): Feature -> bool
  {
    (f: Feature) => term == [] || matches(f.name, term) || matches(f.kind, term)
  }

  /** Rows at one given position. */
  function AtPosition(p: int): Feature -> bool
  {
    (f: Feature) => f.position == p
  }

  lemma {:induction false} FilterMembers<T>(s: seq<T>, keep: T -> bool, x: T)
    ensures x in Filter(s, keep) <==> x in s && keep(x)
  {
    if s != [] {
      FilterMembers(s[1..], keep, x);
      assert s == [s[0]] + s[1..];
    }
  }

  lemma {:induction false} FilterKeepsOrder<T>(s: seq<T>, keep: T -> bool)
    ensures IsSubsequence(Filter(s, keep), s)
  {
    if s != [] {
      FilterKeepsOrder(s[1..], keep);
      var r := Filter(s, keep);
      if keep(s[0]) {
        assert r[0] == s[0] && r[1..] == Filter(s[1..], keep);
      }
    }
  }

  lemma {:induction false} FilterKeepsAll<T>(s: seq<T>, keep: T -> bool)
    requires forall i :: 0 <= i < |s| ==> keep(s[i])
    ensures Filter(s, keep) == s
  {
    if s != [] {
      FilterKeepsAll(s[1..], keep);
      assert s == [s[0]] + s[1..];
    }
  }

  lemma {:induction false} FilterConcat<T>(a: seq<T>, b: seq<T>, keep: T -> bool)
    ensures Filter(a + b, keep) == Filter(a, keep) + Filter(b, keep)
  {
    if a == [] {
      assert a + b == b;
    } else {
      FilterConcat(a[1..], b, keep);
      assert (a + b)[0] == a[0] && (a + b)[1..] == a[1..] + b;
      assert Filter(a + b, keep) == (if keep(a[0]) then [a[0]] else []) + Filter(a[1..] + b, keep);
    }
  }

  lemma {:induction false} FilterSorted(s: seq<Feature>, keep: Feature -> bool)
    requires Sorted(s)
    ensures Sorted(Filter(s, keep))
  {
    if s != [] {
      FilterSorted(s[1..], keep);
      if keep(s[0]) {
        var rest := Filter(s[1..], keep);
        forall k | 0 <= k < |rest| ensures s[0].position <= rest[k].position {
          FilterMembers(s[1..], keep, rest[k]);
        }
      }
    }
  }

  /** The empty search term keeps every row, in order. */
  lemma {:induction false} EmptyTermKeepsAll(s: seq<Feature>, matches: (string, string) -> bool)
    ensures Filter(s, Hit(matches, [])) == s
  {
    FilterKeepsAll(s, Hit(matches, []));
  }

  // ---------------------------------------------------------------------------
  // Renumbering (resetPositions)
  // ---------------------------------------------------------------------------

  /** Every row gets its 1-based index as position. */
  function Renumber(s: seq<Feature>): (r: seq<Feature>)
    ensures |r| == |s|
  {
    if s == [] then [] else Renumber(s[..|s| - 1]) + [s[|s| - 1].(position := |s|)]
  }

  /** After renumbering the row at index i is the old row at index i with position i + 1. */
  lemma {:induction false} RenumberAt(s: seq<Feature>)
    ensures forall i :: 0 <= i < |s| ==> Renumber(s)[i] == s[i].(position := i + 1)
  {
    if s != [] {
      RenumberAt(s[..|s| - 1]);
    }
  }

  /** Renumbered positions are exactly 1, 2, ..., N in list order. */
  lemma {:induction false} RenumberDense(s: seq<Feature>)
    ensures forall i, j :: 0 <= i < j < |s| ==> Renumber(s)[i].position < Renumber(s)[j].position
    ensures forall i :: 0 <= i < |s| ==> 1 <= Renumber(s)[i].position <= |s|
    ensures Sorted(Renumber(s))
  {
    RenumberAt(s);
  }

  // ---------------------------------------------------------------------------
  // Sorting by position (Array.prototype.sort with (a, b) => a.position - b.position)
  // ---------------------------------------------------------------------------

  /** Puts `x` after every row whose position is not greater than its own. */
  function Insert(s: seq<Feature>, x: Feature): (r: seq<Feature>)
    ensures |r| == |s| + 1
  {
    if s == [] || s[|s| - 1].position <= x.position then s + [x]
    else Insert(s[..|s| - 1], x) + [s[|s| - 1]]
  }

  /** Stable insertion sort by position. */
  function SortByPosition(s: seq<Feature>): (r: seq<Feature>)
    ensures |r| == |s|
  {
    if s == [] then [] else Insert(SortByPosition(s[..|s| - 1]), s[|s| - 1])
  }

  lemma {:induction false} InsertPermutes(s: seq<Feature>, x: Feature)
    ensures multiset(Insert(s, x)) == multiset(s) + multiset{x}
  {
    if !(s == [] || s[|s| - 1].position <= x.position) {
      var init := s[..|s| - 1];
      InsertPermutes(init, x);
      assert s == init + [s[|s| - 1]];
    }
  }

  lemma {:induction false} InsertSorted(s: seq<Feature>, x: Feature)
    requires Sorted(s)
    ensures Sorted(Insert(s, x))
  {
    if !(s == [] || s[|s| - 1].position <= x.position) {
      var init, last := s[..|s| - 1], s[|s| - 1];
      InsertSorted(init, x);
      InsertPermutes(init, x);
      var r := Insert(init, x);
      forall k | 0 <= k < |r| ensures r[k].position <= last.position {
        assert r[k] in multiset(init) + multiset{x};
      }
    }
  }

  /** The sorted list is in non-decreasing position order. */
  lemma {:induction false} SortSorted(s: seq<Feature>)
    ensures Sorted(SortByPosition(s))
  {
    if s != [] {
      SortSorted(s[..|s| - 1]);
      InsertSorted(SortByPosition(s[..|s| - 1]), s[|s| - 1]);
    }
  }

  /** The sorted list holds exactly the rows of the input. */
  lemma {:induction false} SortPermutes(s: seq<Feature>)
    ensures multiset(SortByPosition(s)) == multiset(s)
  {
    if s != [] {
      var init := s[..|s| - 1];
      SortPermutes(init);
      InsertPermutes(SortByPosition(init), s[|s| - 1]);
      assert s == init + [s[|s| - 1]];
    }
  }

  /** Sorting a list that is already in position order leaves it as it is. */
  lemma {:induction false} SortOfSorted(s: seq<Feature>)
    requires Sorted(s)
    ensures SortByPosition(s) == s
  {
    if s != [] {
      var init := s[..|s| - 1];
      SortOfSorted(init);
      assert s == init + [s[|s| - 1]];
    }
  }

  lemma {:induction false} InsertStable(s: seq<Feature>, x: Feature, p: int)
    ensures Filter(Insert(s, x), AtPosition(p))
         == Filter(s, AtPosition(p)) + (if x.position == p then [x] else [])
  {
    var at := AtPosition(p);
    if s == [] || s[|s| - 1].position <= x.position {
      FilterConcat(s, [x], at);
    } else {
      var init, last := s[..|s| - 1], s[|s| - 1];
      InsertStable(init, x, p);
      FilterConcat(Insert(init, x), [last], at);
      FilterConcat(init, [last], at);
      assert s == init + [last];
    }
  }

  /** The sort is stable: rows sharing a position keep their relative order. */
  lemma {:induction false} SortStable(s: seq<Feature>, p: int)
    ensures Filter(SortByPosition(s), AtPosition(p)) == Filter(s, AtPosition(p))
  {
    if s != [] {
      var init, last := s[..|s| - 1], s[|s| - 1];
      SortStable(init, p);
      InsertStable(SortByPosition(init), last, p);
      FilterConcat(init, [last], AtPosition(p));
      assert s == init + [last];
    }
  }

  /** Sorts `a` in place by position, as the engine's stable Array.prototype.sort does. */
  method SortInPlace(a: array<Feature>)
    modifies a
    ensures a[..] == SortByPosition(old(a[..]))
    ensures Sorted(a[..]) && multiset(a[..]) == multiset(old(a[..]))
  {
    var sorted := SortByPosition(a[..]);
    SortSorted(a[..]);
    SortPermutes(a[..]);
    forall i | 0 <= i < a.Length {
      a[i] := sorted[i];
    }
    assert a[..] == sorted;
  }

  // ---------------------------------------------------------------------------
  // Worked scenarios
  // ---------------------------------------------------------------------------

  /** Rows c, a, b at positions 3, 1, 2 load as a, b, c. */
  lemma LoadScenario()
    ensures SortByPosition([Feature("c", "C", "property", 3), Feature("a", "A", "property", 1),
                            Feature("b", "B", "property", 2)])
         == [Feature("a", "A", "property", 1), Feature("b", "B", "property", 2),
             Feature("c", "C", "property", 3)]
  {
    var a, b, c := Feature("a", "A", "property", 1), Feature("b", "B", "property", 2),
                   Feature("c", "C", "property", 3);
    assert [c, a, b][..2] == [c, a] && [c, a][..1] == [c] && [c][..0] == [];
    assert SortByPosition([c, a]) == Insert([c], a) == [a, c];
    assert Insert([a, c], b) == Insert([a], b) + [c];
  }

  /** Deleting b from a, b, c at 1, 2, 3 leaves a at 1 and c renumbered from 3 to 2. */
  lemma DeleteScenario()
    ensures Renumber(Filter([Feature("a", "A", "property", 1), Feature("b", "B", "property", 2),
                             Feature("c", "C", "property", 3)], Unselected({"b"})))
         == [Feature("a", "A", "property", 1), Feature("c", "C", "property", 2)]
  {
  }
}
