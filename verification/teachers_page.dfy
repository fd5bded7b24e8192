/** The teachers page: the shared list page over teacher records. */
module TeachersPage {
  import opened Common
  import opened Text
  import opened Search
  import opened CrudPage

  /** The fields the search box looks at, in the order the filter tries them. */
  const Searched: seq<string> := ["firstName", "lastName", "subject", "department", "email"]

  const Teachers: Entity := Entity("Teacher", "teacher", Searched)

  /** A blank query (empty or whitespace only) shows every teacher. */
  lemma BlankQueryShowsAll(p: Page)
    requires IsBlank(p.query)
    ensures Visible(Teachers, p) == p.items
  {
    FilterMeaning(p.items, Searched, p.query);
  }

  /** For any other query a teacher is shown exactly when it is in the list and its
      first name, last name, subject, department or email, lowercased, contains the
      lowercased (untrimmed) query; the shown list keeps the list's order. */
  lemma ShownIff(p: Page, t: Record)
    requires !IsBlank(p.query)
    ensures IsSubsequence(Visible(Teachers, p), p.items)
    ensures t in Visible(Teachers, p) <==>
              && t in p.items
              && (|| FieldMatches(t, "firstName", Lower(p.query))
                  || FieldMatches(t, "lastName", Lower(p.query))
                  || FieldMatches(t, "subject", Lower(p.query))
                  || FieldMatches(t, "department", Lower(p.query))
                  || FieldMatches(t, "email", Lower(p.query)))
  {
    FilterMeaning(p.items, Searched, p.query);
    AnyFieldMatchesMeaning(Searched, t, Lower(p.query));
    assert t in Visible(Teachers, p) <==> multiset(Visible(Teachers, p))[t] > 0;
    assert t in p.items <==> multiset(p.items)[t] > 0;
  }

  /** Phone, and every other field outside the five, is never searched: changing it
      never changes whether a teacher matches. */
  lemma UnsearchedFieldsIgnored(t: Record, field: string, value: string, query: string)
    requires field !in {"firstName", "lastName", "subject", "department", "email"}
    ensures AnyFieldMatches(Searched, t[field := value], query) == AnyFieldMatches(Searched, t, query)
  {
    UnsearchedFieldIrrelevant(Searched, t, field, value, query);
  }

  /** A teacher named "Ann" contains "ann" but not " ann". */
  lemma AnnMatchesOnlyUnpadded()
    ensures Select([map["firstName" := "Ann"]], Searched, "ann") == [map["firstName" := "Ann"]]
    ensures Select([map["firstName" := "Ann"]], Searched, " ann") == []
  {
    var t: Record := map["firstName" := "Ann"];
    assert Lower("Ann") == "ann";
    assert OccursAt("ann", "ann", 0);
    assert FieldMatches(t, "firstName", "ann");
    assert !Includes("ann", " ann");
    assert !AnyFieldMatches(Searched, t, " ann");
  }

  /** Neither "ann" nor " ann" is blank, and both are already lower case. */
  lemma QueriesNotBlank()
    ensures Trim("ann") != "" && Trim(" ann") != ""
    ensures Lower("ann") == "ann" && Lower(" ann") == " ann"
  {
    TrimMeaning("ann");
    TrimMeaning(" ann");
    assert !IsSpace("ann"[0]) && !IsSpace(" ann"[1]);
  }

  /** The query is not trimmed: " ann" finds no teacher named "Ann" although "ann"
      does. */
  lemma QueryIsNotTrimmed(p: Page)
    requires p.items == [map["firstName" := "Ann"]]
    ensures Visible(Teachers, p.(query := "ann")) == p.items
    ensures Visible(Teachers, p.(query := " ann")) == []
  {
    AnnMatchesOnlyUnpadded();
    QueriesNotBlank();
  }
}
