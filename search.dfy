/**
 * The client-side search hook (app/hooks/useSearch.ts) and the two filter
 * predicates its callers pass (app/routes/dashboard.tsx and
 * app/routes/projects.new.tsx).
 */
module Search {
  import opened JsStrings

  /** `items.filter((item) => filterFn(item, query))` */
  function Filter<T>(items: seq<T>, query: string, filterFn: (T, string) -> bool): (r: seq<T>)
    ensures |r| <= |items|
    ensures forall i :: 0 <= i < |r| ==> filterFn(r[i], query)
    ensures forall i :: 0 <= i < |items| && filterFn(items[i], query) ==> items[i] in r
  {
    if items == [] then []
    else (if filterFn(items[0], query) then [items[0]] else []) + Filter(items[1..], query, filterFn)
  }

  /** `filteredItems`: the identity for an empty query, else a filter by the lower-cased query. */
  function FilteredItems<T>(items: seq<T>, searchQuery: string, filterFn: (T, string) -> bool): (r: seq<T>)
    ensures searchQuery == "" ==> r == items
    ensures searchQuery != "" ==> forall i :: 0 <= i < |r| ==> filterFn(r[i], ToLowerCase(searchQuery))
    ensures searchQuery != "" ==> forall i :: 0 <= i < |items| && filterFn(items[i], ToLowerCase(searchQuery)) ==> items[i] in r
  {
    if searchQuery == "" then items else Filter(items, ToLowerCase(searchQuery), filterFn)
  }

  /** `idx` maps each element of `xs` to an equal element of `ys`, at increasing positions. */
  ghost predicate IsEmbedding<T>(xs: seq<T>, ys: seq<T>, idx: seq<int>) {
    && |idx| == |xs|
    && (forall i :: 0 <= i < |idx| ==> 0 <= idx[i] < |ys| && xs[i] == ys[idx[i]])
    && (forall i, j :: 0 <= i < j < |idx| ==> idx[i] < idx[j])
  }

  ghost predicate IsSubsequence<T>(xs: seq<T>, ys: seq<T>) {
    exists idx :: IsEmbedding(xs, ys, idx)
  }

  /** Every position moved one to the right. */
  function Shift(idx: seq<int>): (r: seq<int>)
    ensures |r| == |idx| && forall i :: 0 <= i < |r| ==> r[i] == idx[i] + 1
  {
    seq(|idx|, i requires 0 <= i < |idx| => idx[i] + 1)
  }

  /** An embedding survives putting one element in front of the target, with or without matching it. */
  lemma ConsEmbedding<T>(xs: seq<T>, y: T, ys: seq<T>, idx: seq<int>)
    requires IsEmbedding(xs, ys, idx)
    ensures IsEmbedding(xs, [y] + ys, Shift(idx))
    ensures IsEmbedding([y] + xs, [y] + ys, [0] + Shift(idx))
  {
    var s := Shift(idx);
    forall i | 0 <= i < |s| ensures 0 <= s[i] < |[y] + ys| && xs[i] == ([y] + ys)[s[i]] {
      assert ([y] + ys)[s[i]] == ys[idx[i]];
    }
    var s' := [0] + s;
    forall i | 0 <= i < |s'| ensures 0 <= s'[i] < |[y] + ys| && ([y] + xs)[i] == ([y] + ys)[s'[i]] {
      if i > 0 {
        assert s'[i] == s[i - 1] && ([y] + xs)[i] == xs[i - 1];
      }
    }
    forall i, j | 0 <= i < j < |s'| ensures s'[i] < s'[j] {
      if i > 0 {
        assert s'[i] == s[i - 1] && s'[j] == s[j - 1];
      } else {
        assert s'[j] == s[j - 1];
      }
    }
  }

  /** The filter keeps the items it keeps in their original order. */
  lemma {:induction false} FilterIsSubsequence<T>(items: seq<T>, query: string, filterFn: (T, string) -> bool)
    returns (idx: seq<int>)
    ensures IsEmbedding(Filter(items, query, filterFn), items, idx)
  {
    if items == [] {
      idx := [];
    } else {
      var tail := Filter(items[1..], query, filterFn);
      var rest := FilterIsSubsequence(items[1..], query, filterFn);
      ConsEmbedding(tail, items[0], items[1..], rest);
      assert items == [items[0]] + items[1..];
      if filterFn(items[0], query) {
        idx := [0] + Shift(rest);
        assert Filter(items, query, filterFn) == [items[0]] + tail;
      } else {
        idx := Shift(rest);
        assert Filter(items, query, filterFn) == tail;
      }
    }
  }

  lemma FilteredItemsIsSubsequence<T>(items: seq<T>, searchQuery: string, filterFn: (T, string) -> bool)
    ensures IsSubsequence(FilteredItems(items, searchQuery, filterFn), items)
  {
    if searchQuery == "" {
      var idx := seq(|items|, i requires 0 <= i < |items| => i);
      assert IsEmbedding(items, items, idx);
    } else {
      var idx := FilterIsSubsequence(items, ToLowerCase(searchQuery), filterFn);
    }
  }

  /** Each kept item keeps all its copies, each dropped one loses all of them. */
  lemma {:induction false} FilterCounts<T>(items: seq<T>, query: string, filterFn: (T, string) -> bool, x: T)
    ensures multiset(Filter(items, query, filterFn))[x] ==
            if filterFn(x, query) then multiset(items)[x] else 0
  {
    if items != [] {
      FilterCounts(items[1..], query, filterFn, x);
      assert items == [items[0]] + items[1..];
    }
  }

  /** An item is in the result exactly when it is in the input and satisfies the predicate. */
  lemma FilterMembership<T>(items: seq<T>, query: string, filterFn: (T, string) -> bool, x: T)
    ensures x in Filter(items, query, filterFn) <==> x in items && filterFn(x, query)
  {
    FilterCounts(items, query, filterFn, x);
  }

  lemma FilteredItemsMembership<T>(items: seq<T>, searchQuery: string, filterFn: (T, string) -> bool, x: T)
    ensures x in FilteredItems(items, searchQuery, filterFn) <==>
      x in items && (searchQuery == "" || filterFn(x, ToLowerCase(searchQuery)))
  {
    if searchQuery != "" {
      FilterMembership(items, ToLowerCase(searchQuery), filterFn, x);
    }
  }

  /** Filtering a filtered list again with the same query changes nothing. */
  lemma {:induction false} FilterIdempotent<T>(items: seq<T>, query: string, filterFn: (T, string) -> bool)
    ensures Filter(Filter(items, query, filterFn), query, filterFn) == Filter(items, query, filterFn)
  {
    if items != [] {
      FilterIdempotent(items[1..], query, filterFn);
      var tail := Filter(items[1..], query, filterFn);
      if filterFn(items[0], query) {
        var r := [items[0]] + tail;
        assert r[0] == items[0] && r[1..] == tail;
        assert Filter(items, query, filterFn) == r;
        assert Filter(r, query, filterFn) == [items[0]] + Filter(tail, query, filterFn);
      } else {
        assert Filter(items, query, filterFn) == tail;
      }
    }
  }

  lemma FilteredItemsIdempotent<T>(items: seq<T>, searchQuery: string, filterFn: (T, string) -> bool)
    ensures FilteredItems(FilteredItems(items, searchQuery, filterFn), searchQuery, filterFn)
         == FilteredItems(items, searchQuery, filterFn)
  {
    if searchQuery != "" {
      FilterIdempotent(items, ToLowerCase(searchQuery), filterFn);
    }
  }

  /** The predicate only sees the lower-cased query, so queries equal up to case give the same list. */
  lemma QueryCaseIrrelevant<T>(items: seq<T>, q1: string, q2: string, filterFn: (T, string) -> bool)
    requires ToLowerCase(q1) == ToLowerCase(q2)
    ensures FilteredItems(items, q1, filterFn) == FilteredItems(items, q2, filterFn)
  {
    assert |q1| == |ToLowerCase(q1)| && |q2| == |ToLowerCase(q2)|;
  }

  // ---------------------------------------------------------------------------
  // the callers' predicates

  /** A dashboard project, reduced to what its search looks at. */
  datatype ProjectSummary = ProjectSummary(id: string, name: string)

  /** An entry of the member picker's user list. */
  datatype UserOption = UserOption(id: string, name: string, email: string)

  /** `project.name.toLowerCase().includes(query)` */
  predicate ProjectNameMatches(project: ProjectSummary, query: string) {
    Contains(ToLowerCase(project.name), query)
  }

  /** `user.name.toLowerCase().includes(query) || user.email.toLowerCase().includes(query)` */
  predicate UserMatches(user: UserOption, query: string) {
    Contains(ToLowerCase(user.name), query) || Contains(ToLowerCase(user.email), query)
  }

  /** The dashboard search is a case-insensitive substring search on project names. */
  lemma DashboardSearch(projects: seq<ProjectSummary>, searchQuery: string)
    ensures forall p :: p in FilteredItems(projects, searchQuery, ProjectNameMatches) <==>
      p in projects && Contains(ToLowerCase(p.name), ToLowerCase(searchQuery))
  {
    forall p ensures p in FilteredItems(projects, searchQuery, ProjectNameMatches) <==>
      p in projects && Contains(ToLowerCase(p.name), ToLowerCase(searchQuery))
    {
      FilteredItemsMembership(projects, searchQuery, ProjectNameMatches, p);
      ContainsEmpty(ToLowerCase(p.name));
    }
  }

  /** The member picker's search is a case-insensitive substring search on name or e-mail. */
  lemma MemberPickerSearch(users: seq<UserOption>, searchQuery: string)
    ensures forall u :: u in FilteredItems(users, searchQuery, UserMatches) <==>
      && u in users
      && (|| Contains(ToLowerCase(u.name), ToLowerCase(searchQuery))
          || Contains(ToLowerCase(u.email), ToLowerCase(searchQuery)))
  {
    forall u ensures u in FilteredItems(users, searchQuery, UserMatches) <==>
      && u in users
      && (|| Contains(ToLowerCase(u.name), ToLowerCase(searchQuery))
          || Contains(ToLowerCase(u.email), ToLowerCase(searchQuery)))
    {
      FilteredItemsMembership(users, searchQuery, UserMatches, u);
      ContainsEmpty(ToLowerCase(u.name));
    }
  }

  // ---------------------------------------------------------------------------
  // state

  /** The hook's `searchQuery` state cell. */
  class SearchState {
    var searchQuery: string

    constructor ()
      ensures searchQuery == ""
    {
      searchQuery := "";
    }

    /** `handleSearch(query)`: store the query exactly as typed. */
    method HandleSearch(query: string)
      modifies this
      ensures searchQuery == query
    {
      searchQuery := query;
    }
  }
}
