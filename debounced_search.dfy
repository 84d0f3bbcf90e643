/**
 * The pure parts of the frontend search hooks
 * (sistema-paineis-tv/src/hooks/useDebouncedSearch.ts): filtering the data by a
 * query, the search-history updates and the suggestion list.  Items are of any
 * type `T`; `get(item, field)` is the field's value as `String(value)` would print
 * it, or `None` when it is null or undefined.
 */
module DebouncedSearch {
  import opened Text
  import opened Seqs

  /** The query or value as compared: as typed, or lower-cased. */
  function Fold(caseSensitive: bool, s: string): string
  {
    if caseSensitive then s else Lower(s)
  }

  /** A query too short to search with: empty, or under the minimum length. */
  predicate TooShort(query: string, minSearchLength: int)
  {
    query == "" || |query| < minSearchLength
  }

  /** The field is set and its folded value contains the term. */
  predicate FieldMatches<T, F>(item: T, field: F, get: (T, F) -> Option<string>, caseSensitive: bool, term: string)
  {
    get(item, field).Some? && Contains(Fold(caseSensitive, get(item, field).value), term)
  }

  /** What `data.filter` keeps: the custom filter's verdict on the folded term if
      there is one, otherwise some search field matching. */
  predicate ItemMatches<T, F>(item: T, fields: seq<F>, get: (T, F) -> Option<string>, caseSensitive: bool,
                             custom: Option<(T, string) -> bool>, term: string)
  {
    if custom.Some? then custom.value(item, term)
    else exists i :: 0 <= i < |fields| && FieldMatches(item, fields[i], get, caseSensitive, term)
  }

  function Keep<T, F>(fields: seq<F>, get: (T, F) -> Option<string>, caseSensitive: bool,
                      custom: Option<(T, string) -> bool>, term: string): T -> bool
  {
    item => ItemMatches(item, fields, get, caseSensitive, custom, term)
  }

  /** `filterData(query)`: the matching items, in their order in the data. */
  function FilterData<T(==,!new), F>(data: seq<T>, query: string, fields: seq<F>, get: (T, F) -> Option<string>,
                            minSearchLength: int, caseSensitive: bool, custom: Option<(T, string) -> bool>): (r: seq<T>)
    ensures TooShort(query, minSearchLength) ==> r == data
    ensures !TooShort(query, minSearchLength) ==> forall x :: x in r <==>
      x in data && ItemMatches(x, fields, get, caseSensitive, custom, Fold(caseSensitive, query))
    ensures !TooShort(query, minSearchLength) ==>
      exists idx :: Picks(r, data, Keep(fields, get, caseSensitive, custom, Fold(caseSensitive, query)), idx)
    ensures |r| <= |data|
  {
    if TooShort(query, minSearchLength) then data
    else
      var keep := Keep(fields, get, caseSensitive, custom, Fold(caseSensitive, query));
      FilterPicks(data, keep);
      forall x
        ensures x in Filter(data, keep) <==> x in data && keep(x)
      {
        FilterMember(data, keep, x);
      }
      Filter(data, keep)
  }

  /** Without a custom filter, an item whose search fields are all null or
      undefined is never found. */
  lemma NullFieldsNeverMatch<T(!new), F>(data: seq<T>, query: string, fields: seq<F>, get: (T, F) -> Option<string>,
                                   minSearchLength: int, caseSensitive: bool, item: T)
    requires !TooShort(query, minSearchLength)
    requires forall i :: 0 <= i < |fields| ==> get(item, fields[i]).None?
    ensures item !in FilterData(data, query, fields, get, minSearchLength, caseSensitive, None)
  {
  }

  /** A search that ignores case finds the same items whatever the case of the
      query. */
  lemma QueryCaseIrrelevant<T(!new), F>(data: seq<T>, query: string, fields: seq<F>, get: (T, F) -> Option<string>,
                                  minSearchLength: int, custom: Option<(T, string) -> bool>)
    ensures FilterData(data, Lower(query), fields, get, minSearchLength, false, custom)
         == FilterData(data, query, fields, get, minSearchLength, false, custom)
  {
    LowerIdempotent(query);
    assert Lower(query) == "" <==> query == "";
  }

  // ---------------------------------------------------------------------------
  // Search history
  // ---------------------------------------------------------------------------

  /** `s.slice(0, n)`: a negative `n` counts from the end. */
  function SliceTo<T>(s: seq<T>, n: int): (r: seq<T>)
    ensures |r| <= |s| && r == s[..|r|]
    ensures n >= 0 ==> |r| == if n < |s| then n else |s|
    ensures n < 0 ==> |r| == if |s| + n > 0 then |s| + n else 0
  {
    if n >= 0 then (if n < |s| then s[..n] else s)
    else if |s| + n > 0 then s[..|s| + n] else []
  }

  predicate Distinct<T(==)>(s: seq<T>)
  {
    forall i, j :: 0 <= i < j < |s| ==> s[i] != s[j]
  }

  function Other(query: string): string -> bool
  {
    item => item != query
  }

  /** Whether `addToHistory(query)` records the query: it must be non-empty, the
      minimum length must be defined, and the query at least that long. */
  predicate Recorded(query: string, minSearchLength: Option<int>)
  {
    query != "" && minSearchLength.Some? && |query| >= minSearchLength.value
  }

  /** The history after `addToHistory(query)`. */
  function AddToHistory(prev: seq<string>, query: string, minSearchLength: Option<int>, maxHistory: int): seq<string>
  {
    if !Recorded(query, minSearchLength) then prev
    else SliceTo([query] + Filter(prev, Other(query)), maxHistory)
  }

  /** The history after `removeFromHistory(query)`: every other entry, in its
      order. */
  function RemoveFromHistory(prev: seq<string>, query: string): (r: seq<string>)
    ensures query !in r
    ensures forall x :: x != query ==> multiset(r)[x] == multiset(prev)[x]
    ensures exists idx :: Picks(r, prev, Other(query), idx)
  {
    FilterPicks(prev, Other(query));
    forall x ensures multiset(Filter(prev, Other(query)))[x] == if x != query then multiset(prev)[x] else 0 {
      FilterMultiset(prev, Other(query), x);
    }
    Filter(prev, Other(query))
  }

  /** A recorded query comes first and only once, the other entries follow in their
      previous order, as many entries remain as `slice(0, maxHistory)` leaves of
      the query and the others (at most `maxHistory` when it is not negative), and
      a history without repeats stays without repeats.  A query not recorded
      changes nothing. */
  lemma AddToHistorySpec(prev: seq<string>, query: string, minSearchLength: Option<int>, maxHistory: int)
    ensures var r := AddToHistory(prev, query, minSearchLength, maxHistory);
      && (!Recorded(query, minSearchLength) ==> r == prev)
      && (Recorded(query, minSearchLength) && maxHistory >= 1 ==> r != [] && r[0] == query && query !in r[1..])
      && (Recorded(query, minSearchLength) && r != [] ==> r[1..] == Filter(prev, Other(query))[..|r| - 1])
      && (Recorded(query, minSearchLength) && maxHistory >= 0 ==>
            var n := 1 + |Filter(prev, Other(query))|; |r| == if maxHistory < n then maxHistory else n)
      && (Recorded(query, minSearchLength) && maxHistory < 0 ==>
            var n := 1 + |Filter(prev, Other(query))|; |r| == if n + maxHistory > 0 then n + maxHistory else 0)
      && (Distinct(prev) ==> Distinct(r))
  {
    var rest := Filter(prev, Other(query));
    var full := [query] + rest;
    FilterMember(prev, Other(query), query);
    if Recorded(query, minSearchLength) {
      var r := SliceTo(full, maxHistory);
      assert full[1..] == rest;
      if r != [] {
        assert r[1..] == rest[..|r| - 1];
      }
      if Distinct(prev) {
        FilterDistinctSeq(prev, Other(query));
        forall i, j | 0 <= i < j < |r| ensures r[i] != r[j] {
          if i == 0 {
            assert r[j] == rest[j - 1] && rest[j - 1] in rest;
          } else {
            assert r[i] == rest[i - 1] && r[j] == rest[j - 1];
          }
        }
      }
    }
  }

  /** Filtering keeps a sequence without repeats without repeats. */
  lemma {:induction false} FilterDistinctSeq<T>(s: seq<T>, f: T -> bool)
    requires Distinct(s)
    ensures Distinct(Filter(s, f))
  {
    if s != [] {
      var pre := s[..|s| - 1];
      FilterDistinctSeq(pre, f);
      FilterMember(pre, f, s[|s| - 1]);
    }
  }

  /** Removing a query just recorded leaves the other entries as they were, when
      the history had room for all of them. */
  lemma RemoveAfterAdd(prev: seq<string>, query: string, minSearchLength: Option<int>, maxHistory: int)
    requires Recorded(query, minSearchLength)
    requires maxHistory > |prev|
    ensures RemoveFromHistory(AddToHistory(prev, query, minSearchLength, maxHistory), query) == RemoveFromHistory(prev, query)
  {
    var rest := Filter(prev, Other(query));
    FilterAppend([query], rest, Other(query));
    FilterSingle(query, Other(query));
    FilterTwice(prev, query);
  }

  lemma {:induction false} FilterTwice(s: seq<string>, query: string)
    ensures Filter(Filter(s, Other(query)), Other(query)) == Filter(s, Other(query))
  {
    if s != [] {
      var pre := s[..|s| - 1];
      FilterTwice(pre, query);
      var last := s[|s| - 1];
      if last != query {
        assert Other(query)(last);
        assert Filter(s, Other(query)) == Filter(pre, Other(query)) + [last];
        FilterAppend(Filter(pre, Other(query)), [last], Other(query));
        FilterSingle(last, Other(query));
      } else {
        assert !Other(query)(last);
        assert Filter(s, Other(query)) == Filter(pre, Other(query));
      }
    }
  }

  // ---------------------------------------------------------------------------
  // Suggestions
  // ---------------------------------------------------------------------------

  /** The values of one item's suggestion fields that match, field by field. */
  function RowSuggestions<T, F>(item: T, fields: seq<F>, get: (T, F) -> Option<string>, caseSensitive: bool, term: string): seq<string>
  {
    if fields == [] then []
    else
      var last := fields[|fields| - 1];
      RowSuggestions(item, fields[..|fields| - 1], get, caseSensitive, term)
      + (if FieldMatches(item, last, get, caseSensitive, term) then [get(item, last).value] else [])
  }

  /** The matching values over all items, item by item. */
  function AllSuggestions<T, F>(items: seq<T>, fields: seq<F>, get: (T, F) -> Option<string>, caseSensitive: bool, term: string): seq<string>
  {
    if items == [] then []
    else AllSuggestions(items[..|items| - 1], fields, get, caseSensitive, term) + RowSuggestions(items[|items| - 1], fields, get, caseSensitive, term)
  }

  /** Every value in a row comes from a matching field of the item. */
  lemma {:induction false} RowSuggestionsFrom<T, F>(item: T, fields: seq<F>, get: (T, F) -> Option<string>, caseSensitive: bool, term: string, v: string)
    requires v in RowSuggestions(item, fields, get, caseSensitive, term)
    ensures exists i :: 0 <= i < |fields| && FieldMatches(item, fields[i], get, caseSensitive, term) && get(item, fields[i]) == Some(v)
  {
    var pre := fields[..|fields| - 1];
    var last := fields[|fields| - 1];
    if v in RowSuggestions(item, pre, get, caseSensitive, term) {
      RowSuggestionsFrom(item, pre, get, caseSensitive, term, v);
      var i :| 0 <= i < |pre| && FieldMatches(item, pre[i], get, caseSensitive, term) && get(item, pre[i]) == Some(v);
      assert pre[i] == fields[i];
    } else {
      assert FieldMatches(item, fields[|fields| - 1], get, caseSensitive, term) && get(item, last) == Some(v);
    }
  }

  /** Every suggested value comes from a matching field of some item. */
  lemma {:induction false} AllSuggestionsFrom<T, F>(items: seq<T>, fields: seq<F>, get: (T, F) -> Option<string>, caseSensitive: bool, term: string, v: string)
    requires v in AllSuggestions(items, fields, get, caseSensitive, term)
    ensures exists k, i :: (0 <= k < |items| && 0 <= i < |fields|
      && FieldMatches(items[k], fields[i], get, caseSensitive, term) && get(items[k], fields[i]) == Some(v))
  {
    var pre := items[..|items| - 1];
    if v in AllSuggestions(pre, fields, get, caseSensitive, term) {
      AllSuggestionsFrom(pre, fields, get, caseSensitive, term, v);
      var k, i :| 0 <= k < |pre| && 0 <= i < |fields|
        && FieldMatches(pre[k], fields[i], get, caseSensitive, term) && get(pre[k], fields[i]) == Some(v);
      assert pre[k] == items[k];
    } else {
      RowSuggestionsFrom(items[|items| - 1], fields, get, caseSensitive, term, v);
    }
  }

  /** Every matching field of the item gives its value to the row. */
  lemma {:induction false} RowSuggestionsTo<T, F>(item: T, fields: seq<F>, get: (T, F) -> Option<string>, caseSensitive: bool, term: string, i: int)
    requires 0 <= i < |fields| && FieldMatches(item, fields[i], get, caseSensitive, term)
    ensures get(item, fields[i]).value in RowSuggestions(item, fields, get, caseSensitive, term)
  {
    var pre := fields[..|fields| - 1];
    if i < |pre| {
      assert pre[i] == fields[i];
      RowSuggestionsTo(item, pre, get, caseSensitive, term, i);
    }
  }

  /** Every matching field of every item gives its value to the suggestions. */
  lemma {:induction false} AllSuggestionsTo<T, F>(items: seq<T>, fields: seq<F>, get: (T, F) -> Option<string>, caseSensitive: bool, term: string, k: int, i: int)
    requires 0 <= k < |items| && 0 <= i < |fields| && FieldMatches(items[k], fields[i], get, caseSensitive, term)
    ensures get(items[k], fields[i]).value in AllSuggestions(items, fields, get, caseSensitive, term)
  {
    var pre := items[..|items| - 1];
    if k < |pre| {
      assert pre[k] == items[k];
      AllSuggestionsTo(pre, fields, get, caseSensitive, term, k, i);
    } else {
      RowSuggestionsTo(items[k], fields, get, caseSensitive, term, i);
    }
  }

  /** The distinct elements in order of first appearance, as a `Set` iterates them. */
  function Dedupe(s: seq<string>): seq<string>
  {
    if s == [] then []
    else
      var d := Dedupe(s[..|s| - 1]);
      if s[|s| - 1] in d then d else d + [s[|s| - 1]]
  }

  lemma {:induction false} DedupeSpec(s: seq<string>)
    ensures Distinct(Dedupe(s))
    ensures forall x :: x in Dedupe(s) <==> x in s
  {
    if s != [] {
      DedupeSpec(s[..|s| - 1]);
      assert forall x :: x in s <==> x in s[..|s| - 1] || x == s[|s| - 1];
    }
  }

  lemma DedupeSnoc(s: seq<string>, v: string)
    ensures Dedupe(s + [v]) == if v in Dedupe(s) then Dedupe(s) else Dedupe(s) + [v]
  {
    assert (s + [v])[..|s|] == s;
  }

  /** The suggestions for the current query. */
  function Suggestions<T, F>(data: seq<T>, query: string, fields: seq<F>, get: (T, F) -> Option<string>,
                             minSearchLength: Option<int>, caseSensitive: bool, maxSuggestions: int): seq<string>
  {
    var min := if minSearchLength.Some? then minSearchLength.value else 1;
    if TooShort(query, min) then []
    else SliceTo(Dedupe(AllSuggestions(data, fields, get, caseSensitive, Fold(caseSensitive, query))), maxSuggestions)
  }

  /** The `useMemo` body of `useSearchWithSuggestions`: every item, every
      suggestion field, each match added to a set. */
  method ComputeSuggestions<T, F>(data: seq<T>, query: string, fields: seq<F>, get: (T, F) -> Option<string>,
                                  minSearchLength: Option<int>, caseSensitive: bool, maxSuggestions: int)
    returns (r: seq<string>)
    ensures r == Suggestions(data, query, fields, get, minSearchLength, caseSensitive, maxSuggestions)
  {
    var min := if minSearchLength.Some? then minSearchLength.value else 1;
    if query == "" || |query| < min {
      return [];
    }
    var term := Fold(caseSensitive, query);
    var found: seq<string> := [];
    for k := 0 to |data|
      invariant found == Dedupe(AllSuggestions(data[..k], fields, get, caseSensitive, term))
    {
      assert data[..k + 1][..k] == data[..k];
      found := AddRow(found, AllSuggestions(data[..k], fields, get, caseSensitive, term), data[k], fields, get, caseSensitive, term);
    }
    assert data[..|data|] == data;
    r := SliceTo(found, maxSuggestions);
  }

  /** The inner `forEach`: the matching fields of one item added to the set. */
  method AddRow<T, F>(found: seq<string>, ghost before: seq<string>, item: T, fields: seq<F>, get: (T, F) -> Option<string>,
                      caseSensitive: bool, term: string)
    returns (r: seq<string>)
    requires found == Dedupe(before)
    ensures r == Dedupe(before + RowSuggestions(item, fields, get, caseSensitive, term))
  {
    r := found;
    assert before + RowSuggestions(item, fields[..0], get, caseSensitive, term) == before;
    for i := 0 to |fields|
      invariant r == Dedupe(before + RowSuggestions(item, fields[..i], get, caseSensitive, term))
    {
      ghost var seen := before + RowSuggestions(item, fields[..i], get, caseSensitive, term);
      RowStep(before, item, fields, i, get, caseSensitive, term);
      var value := get(item, fields[i]);
      if value.Some? && Contains(Fold(caseSensitive, value.value), term) {
        DedupeSnoc(seen, value.value);
        if value.value !in r {
          r := r + [value.value];
        }
      } else {
        assert seen + [] == seen;
      }
    }
    assert fields[..|fields|] == fields;
  }

  lemma RowStep<T, F>(before: seq<string>, item: T, fields: seq<F>, i: nat, get: (T, F) -> Option<string>, caseSensitive: bool, term: string)
    requires i < |fields|
    ensures before + RowSuggestions(item, fields[..i + 1], get, caseSensitive, term)
      == before + RowSuggestions(item, fields[..i], get, caseSensitive, term)
         + (if FieldMatches(item, fields[i], get, caseSensitive, term) then [get(item, fields[i]).value] else [])
  {
    assert fields[..i + 1][..i] == fields[..i];
  }

  /** Suggestions are distinct, at most `maxSuggestions` of them, and each is the
      value of a suggestion field of some item that contains the query under the
      same case rule.  Conversely, for a query long enough (the minimum defaults
      to 1), every such value is suggested unless the list is already full. */
  lemma SuggestionsSpec<T, F>(data: seq<T>, query: string, fields: seq<F>, get: (T, F) -> Option<string>,
                              minSearchLength: Option<int>, caseSensitive: bool, maxSuggestions: int)
    ensures var r := Suggestions(data, query, fields, get, minSearchLength, caseSensitive, maxSuggestions);
      var min := if minSearchLength.Some? then minSearchLength.value else 1;
      && Distinct(r)
      && (maxSuggestions >= 0 ==> |r| <= maxSuggestions)
      && (forall v :: v in r ==> exists k, i :: (0 <= k < |data| && 0 <= i < |fields|
            && get(data[k], fields[i]) == Some(v) && Contains(Fold(caseSensitive, v), Fold(caseSensitive, query))))
      && (TooShort(query, min) ==> r == [])
      && (!TooShort(query, min) && maxSuggestions >= 0 ==>
            forall k, i :: 0 <= k < |data| && 0 <= i < |fields| && get(data[k], fields[i]).Some?
              && Contains(Fold(caseSensitive, get(data[k], fields[i]).value), Fold(caseSensitive, query))
              ==> get(data[k], fields[i]).value in r || |r| == maxSuggestions)
  {
    var min := if minSearchLength.Some? then minSearchLength.value else 1;
    if !TooShort(query, min) {
      var all := AllSuggestions(data, fields, get, caseSensitive, Fold(caseSensitive, query));
      var d := Dedupe(all);
      var r := SliceTo(d, maxSuggestions);
      DedupeSpec(all);
      if maxSuggestions >= 0 {
        forall k, i | 0 <= k < |data| && 0 <= i < |fields| && get(data[k], fields[i]).Some?
            && Contains(Fold(caseSensitive, get(data[k], fields[i]).value), Fold(caseSensitive, query))
          ensures get(data[k], fields[i]).value in r || |r| == maxSuggestions
        {
          AllSuggestionsTo(data, fields, get, caseSensitive, Fold(caseSensitive, query), k, i);
          if |r| < maxSuggestions {
            assert r == d;
          }
        }
      }
      forall i, j | 0 <= i < j < |r| ensures r[i] != r[j] {
        assert r[i] == d[i] && r[j] == d[j];
      }
      forall v | v in r
        ensures exists k, i :: (0 <= k < |data| && 0 <= i < |fields|
          && get(data[k], fields[i]) == Some(v) && Contains(Fold(caseSensitive, v), Fold(caseSensitive, query)))
      {
        assert v in d;
        AllSuggestionsFrom(data, fields, get, caseSensitive, Fold(caseSensitive, query), v);
      }
    }
  }
}
