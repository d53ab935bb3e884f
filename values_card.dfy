/**
 The values card of the product feature set settings page: the grid of a feature
 set's rows, with search, multi-select delete, drag reorder and the editor modal.
 */
module ValuesCardComponent {
  import opened FeatureList

  datatype Option<T> = None | Some(value: T)

  class ValuesCard {
    /** `productFeatureSet.features`, the backing list shared with the parent entity; null when absent. */
    var features: array?<Feature>
    /** The rows the grid shows: either the very array `features` or a filtered copy of it. */
    var values: array<Feature>
    /** The grid's selection, keyed by row id; null until the grid reports one. */
    var selection: Option<map<FeatureId, Feature>>
    var deleteButtonDisabled: bool
    /** The search field's text. */
    var term: string
    var valuesLoading: bool
    var cardLoading: bool
    var showModal: bool
    /** The row the editor modal works on. */
    var currentValue: Option<Feature>
    /** String.prototype.match(pattern) on a row's text, taken as given. */
    const matches: (string, string) -> bool

    /** The initial component state, with the parent's feature list. */
    constructor (productFeatures: array?<Feature>, matches: (string, string) -> bool)
      ensures features == productFeatures && this.matches == matches
      ensures fresh(values) && values.Length == 0
      ensures !valuesLoading && !cardLoading && !showModal && deleteButtonDisabled
      ensures selection == None && term == [] && currentValue == None
    {
      features := productFeatures;
      this.matches := matches;
      values := new Feature[0];
      valuesLoading, cardLoading := false, false;
      selection := None;
      deleteButtonDisabled := true;
      term := [];
      showModal := false;
      currentValue := None;
    }

    /** The backing list's rows, empty when the list is absent. */
    ghost function Contents(): seq<Feature>
      reads this, features
    {
      if features == null then [] else features[..]
    }

    /**
     What a load leaves behind when the backing list held `before`: with an empty
     term `values` IS the backing array, sorted in place; with a term it is a
     sorted filtered copy and the backing list is untouched.
     */
    ghost predicate Loaded(before: seq<Feature>)
      reads this, features, values
    {
      valuesLoading &&
      if features == null then values.Length == 0
      else if term == [] then values == features && features[..] == SortByPosition(before)
      else features[..] == before && values[..] == SortByPosition(Filter(before, Hit(matches, term)))
    }

    /** True when the grid has no row to show. */
    function ValuesEmpty(): (r: bool)
      reads this, values
      ensures r <==> values[..] == []
    {
      values.Length == 0
    }

    method CreatedComponent()
      modifies this`values, this`valuesLoading, features
      ensures features == old(features) && Loaded(old(Contents()))
      ensures if features != null && term == [] then values == features else fresh(values)
    {
      GetList();
    }

    method OnAddField()
      modifies this`showModal
      ensures showModal
    {
      OnShowFeatureModal();
    }

    /** Stores the grid's selection; delete is disabled exactly when nothing is selected. */
    method OnGridSelectionChanged(newSelection: Option<map<FeatureId, Feature>>, selectionCount: int)
      modifies this`selection, this`deleteButtonDisabled
      ensures selection == newSelection
      ensures deleteButtonDisabled <==> selectionCount <= 0
    {
      selection := newSelection;
      deleteButtonDisabled := selectionCount <= 0;
    }

    /** Replaces `values` by a fresh array of the backing rows that match the term. */
    method ApplySearch()
      requires features != null
      modifies this`values
      ensures fresh(values) && values[..] == Filter(features[..], Hit(matches, term))
    {
      var hits := Filter(features[..], Hit(matches, term));
      values := new Feature[|hits|](i requires 0 <= i < |hits| => hits[i]);
      assert values[..] == hits;
    }

    /**
     The search field's handler. With an empty term it reloads, then copies the
     whole (now sorted) list, as the empty pattern matches every row. `ok` is
     false where reading `.filter` of an absent list throws.
     */
    method OnSearch() returns (ok: bool)
      modifies this`values, this`valuesLoading, features
      ensures features == old(features)
      ensures ok <==> features != null
      ensures old(term) == [] ==> valuesLoading
      ensures old(term) == [] && ok ==>
        fresh(values) && values[..] == features[..] == SortByPosition(old(Contents()))
      ensures old(term) == [] && !ok ==> values.Length == 0
      ensures old(term) != [] ==> valuesLoading == old(valuesLoading) && Contents() == old(Contents())
      ensures old(term) != [] && ok ==>
        fresh(values) && values[..] == Filter(features[..], Hit(matches, term))
      ensures old(term) != [] && !ok ==> values == old(values)
    {
      if term == [] {
        GetList();
      }
      if features == null {
        return false;
      }
      ApplySearch();
      if term == [] {
        EmptyTermKeepsAll(features[..], matches);
      }
      ok := true;
    }

    /**
     Loads the grid: marks loading, points `values` at the backing list (or at
     the search hits when a term is set) and sorts it in place by position.
     */
    method GetList()
      modifies this`values, this`valuesLoading, features
      ensures features == old(features) && Loaded(old(Contents()))
      ensures if features != null && term == [] then values == features else fresh(values)
      ensures Sorted(values[..])
      ensures features != null && term == [] ==> multiset(values[..]) == multiset(old(Contents()))
      ensures features != null && term != [] ==>
        multiset(values[..]) == multiset(Filter(old(Contents()), Hit(matches, term)))
    {
      valuesLoading := true;
      values := new Feature[0];
      if features != null {
        values := features;
        if term != [] {
          ApplySearch();
        }
      }
      SortInPlace(values);
    }

    method OnModalClose()
      modifies this`showModal, this`currentValue, this`values, this`valuesLoading, features
      ensures !showModal && currentValue == None
      ensures features == old(features) && Loaded(old(Contents()))
      ensures if features != null && term == [] then values == features else fresh(values)
    {
      showModal := false;
      currentValue := None;
      GetList();
    }

    method OnShowFeatureModal()
      modifies this`showModal
      ensures showModal
    {
      showModal := true;
    }

    /**
     Deletes every selected row (every key of the selection, whatever it maps to)
     from the backing list, renumbers the survivors 1..N and reloads. Without a
     selection nothing changes. `ok` is false where reading `.filter` of an
     absent list throws.
     */
    method OnDeleteFields() returns (ok: bool)
      modifies this`features, this`values, this`valuesLoading
      ensures ok <==> selection == None || old(features) != null
      ensures selection == None || !ok ==>
        features == old(features) && Contents() == old(Contents()) &&
        values == old(values) && values[..] == old(values[..]) && valuesLoading == old(valuesLoading)
      ensures selection != None && ok ==>
        fresh(features) &&
        features[..] == Renumber(Filter(old(Contents()), Unselected(selection.value.Keys))) &&
        valuesLoading &&
        (if term == [] then values == features
         else fresh(values) && values != features && values[..] == Filter(features[..], Hit(matches, term)))
    {
      if selection == None {
        return true;
      }
      if features == null {
        return false;
      }
      DeleteRows(selection.value.Keys);
      ok := true;
    }

    /** The part of the delete that runs on a present list: drop the rows whose id is a key, renumber, reload. */
    method DeleteRows(keys: set<FeatureId>)
      requires features != null
      modifies this`features, this`values, this`valuesLoading
      ensures fresh(features) && features[..] == Renumber(Filter(old(features[..]), Unselected(keys)))
      ensures valuesLoading
      ensures if term == [] then values == features
              else fresh(values) && values != features && values[..] == Filter(features[..], Hit(matches, term))
    {
      var survivors := Filter(features[..], Unselected(keys));
      features := new Feature[|survivors|](i requires 0 <= i < |survivors| => survivors[i]);
      assert features[..] == survivors;
      ResetPositions();
      ghost var renumbered := features[..];
      RenumberedLoadKeepsOrder(survivors, matches, term);
      GetList();
      assert Loaded(renumbered);
    }

    /** Takes the grid's reordered list verbatim as the backing list; positions are not renumbered. */
    method OnPositionChange(reordered: array<Feature>)
      modifies this`features
      ensures features == reordered && features[..] == old(reordered[..])
      ensures values == old(values)
    {
      features := reordered;
    }

    /** Gives every row of the backing list its 1-based index as position. */
    method ResetPositions()
      requires features != null
      modifies features
      ensures features[..] == Renumber(old(features[..]))
      ensures forall i :: 0 <= i < features.Length ==> features[i] == old(features[i]).(position := i + 1)
    {
      ghost var before := features[..];
      var i := 0;
      while i < features.Length
        invariant 0 <= i <= features.Length
        invariant features[..i] == Renumber(before[..i])
        invariant features[i..] == before[i..]
      {
        assert before[..i + 1][..i] == before[..i];
        features[i] := features[i].(position := i + 1);
        assert features[..i + 1] == features[..i] + [features[i]];
        i := i + 1;
      }
      assert before[..i] == before;
      RenumberAt(before);
    }
  }

  /**
   Loading right after a renumber reorders nothing: the renumbered list, and
   every filtered view of it, are already in position order.
   */
  lemma RenumberedLoadKeepsOrder(s: seq<Feature>, matches: (string, string) -> bool, term: string)
    ensures SortByPosition(Renumber(s)) == Renumber(s)
    ensures SortByPosition(Filter(Renumber(s), Hit(matches, term))) == Filter(Renumber(s), Hit(matches, term))
  {
    RenumberDense(s);
    SortOfSorted(Renumber(s));
    FilterSorted(Renumber(s), Hit(matches, term));
    SortOfSorted(Filter(Renumber(s), Hit(matches, term)));
  }
}
