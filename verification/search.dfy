/** The search effect of the list pages: a blank query shows every record; any other
    query keeps the records in which some searched field contains the lowercased
    query, case-insensitively. */
module Search {
  import opened Common
  import opened Text

  /** `xs` is `ys` with some elements left out, the rest kept in their order. */
  ghost predicate IsSubsequence<T>(xs: seq<T>, ys: seq<T>)
    decreases |ys|
  {
    if |xs| == 0 then true
    else if |ys| == 0 then false
    else (xs[0] == ys[0] && IsSubsequence(xs[1..], ys[1..])) || IsSubsequence(xs, ys[1..])
  }

  /** `record.field?.toLowerCase().includes(query)`: an undefined field short-circuits
      to `undefined` and never matches. */
  predicate FieldMatches(r: Record, field: string, query: string) {
    field in r && Includes(Lower(r[field]), query)
  }

  /** The `||` chain of the filter callback, over the searched fields in order. */
  predicate AnyFieldMatches(fields: seq<string>, r: Record, query: string)
    decreases |fields|
  {
    |fields| > 0 && (FieldMatches(r, fields[0], query) || AnyFieldMatches(fields[1..], r, query))
  }

  /** The record is kept when some searched field is defined and its lowercased value
      contains the query. */
  ghost predicate Kept(fields: seq<string>, r: Record, query: string) {
    exists i :: 0 <= i < |fields| && fields[i] in r && exists k :: OccursAt(Lower(r[fields[i]]), query, k)
  }

  lemma {:induction false} AnyFieldMatchesMeaning(fields: seq<string>, r: Record, query: string)
    ensures AnyFieldMatches(fields, r, query) <==> Kept(fields, r, query)
    decreases |fields|
  {
    if |fields| > 0 {
      AnyFieldMatchesMeaning(fields[1..], r, query);
      assert forall i :: 1 <= i < |fields| ==> fields[1..][i - 1] == fields[i];
      if Kept(fields, r, query) && !FieldMatches(r, fields[0], query) {
        var i :| 0 <= i < |fields| && fields[i] in r && exists k :: OccursAt(Lower(r[fields[i]]), query, k);
        assert i != 0;
        assert fields[1..][i - 1] == fields[i];
      }
    }
  }

  /** `items.filter(...)` with an already lowercased query. */
  function Select(items: seq<Record>, fields: seq<string>, query: string): (r: seq<Record>)
    ensures IsSubsequence(r, items)
    ensures forall x :: multiset(r)[x] == if AnyFieldMatches(fields, x, query) then multiset(items)[x] else 0
    decreases |items|
  {
    if |items| == 0 then []
    else
      assert items == [items[0]] + items[1..];
      var rest := Select(items[1..], fields, query);
      if AnyFieldMatches(fields, items[0], query) then [items[0]] + rest else rest
  }

  /** The filter effect: the list shown for `query`. */
  function Filter(items: seq<Record>, fields: seq<string>, query: string): seq<Record> {
    if Trim(query) == "" then items else Select(items, fields, Lower(query))
  }

  /** A blank query shows the whole list. Any other query shows, in list order, the
      records with a searched field containing the lowercased query, each as many times
      as it occurs in the list; the query is lowercased but not trimmed. */
  lemma FilterMeaning(items: seq<Record>, fields: seq<string>, query: string)
    ensures IsBlank(query) ==> Filter(items, fields, query) == items
    ensures IsSubsequence(Filter(items, fields, query), items)
    ensures !IsBlank(query) ==> forall x ::
              multiset(Filter(items, fields, query))[x] ==
                if Kept(fields, x, Lower(query)) then multiset(items)[x] else 0
  {
    TrimMeaning(query);
    SubsequenceOfItself(items);
    forall x {
      AnyFieldMatchesMeaning(fields, x, Lower(query));
    }
  }

  lemma {:induction false} SubsequenceOfItself<T>(xs: seq<T>)
    ensures IsSubsequence(xs, xs)
    decreases |xs|
  {
    if |xs| > 0 {
      SubsequenceOfItself(xs[1..]);
    }
  }

  /** A field that is not searched never decides whether a record is kept. */
  lemma {:induction false} UnsearchedFieldIrrelevant(fields: seq<string>, r: Record, field: string, value: string, query: string)
    requires forall i :: 0 <= i < |fields| ==> fields[i] != field
    ensures AnyFieldMatches(fields, r[field := value], query) == AnyFieldMatches(fields, r, query)
    decreases |fields|
  {
    if |fields| > 0 {
      UnsearchedFieldIrrelevant(fields[1..], r, field, value, query);
    }
  }

  /** A record in which no searched field is defined is hidden by every non-blank query. */
  lemma UndefinedFieldsNeverMatch(items: seq<Record>, fields: seq<string>, query: string, r: Record)
    requires !IsBlank(query)
    requires forall i :: 0 <= i < |fields| ==> fields[i] !in r
    ensures r !in Filter(items, fields, query)
  {
    FilterMeaning(items, fields, query);
    assert !Kept(fields, r, Lower(query));
    assert multiset(Filter(items, fields, query))[r] == 0;
  }
}
