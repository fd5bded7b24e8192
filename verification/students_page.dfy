/** The students page: the shared list page over student records. */
module StudentsPage {
  import opened Common
  import opened Text
  import opened Search
  import opened CrudPage

  /** The fields the search box looks at, in the order the filter tries them. */
  const Searched: seq<string> := ["firstName", "lastName", "grade", "section", "rollNumber", "parentName"]

  const Students: Entity := Entity("Student", "student", Searched)

  /** A blank query (empty or whitespace only) shows every student. */
  lemma BlankQueryShowsAll(p: Page)
    requires IsBlank(p.query)
    ensures Visible(Students, p) == p.items
  {
    FilterMeaning(p.items, Searched, p.query);
  }

  /** For any other query a student is shown exactly when it is in the list and its
      first name, last name, grade, section, roll number or parent name, lowercased,
      contains the lowercased (untrimmed) query; the shown list keeps the list's order. */
  lemma ShownIff(p: Page, st: Record)
    requires !IsBlank(p.query)
    ensures IsSubsequence(Visible(Students, p), p.items)
    ensures st in Visible(Students, p) <==>
              && st in p.items
              && (|| FieldMatches(st, "firstName", Lower(p.query))
                  || FieldMatches(st, "lastName", Lower(p.query))
                  || FieldMatches(st, "grade", Lower(p.query))
                  || FieldMatches(st, "section", Lower(p.query))
                  || FieldMatches(st, "rollNumber", Lower(p.query))
                  || FieldMatches(st, "parentName", Lower(p.query)))
  {
    FilterMeaning(p.items, Searched, p.query);
    AnyFieldMatchesMeaning(Searched, st, Lower(p.query));
    assert st in Visible(Students, p) <==> multiset(Visible(Students, p))[st] > 0;
    assert st in p.items <==> multiset(p.items)[st] > 0;
  }

  /** parentPhone, parentEmail and every other field outside the six are never
      searched: changing one never changes whether a student matches. */
  lemma UnsearchedFieldsIgnored(st: Record, field: string, value: string, query: string)
    requires field !in {"firstName", "lastName", "grade", "section", "rollNumber", "parentName"}
    ensures AnyFieldMatches(Searched, st[field := value], query) == AnyFieldMatches(Searched, st, query)
  {
    UnsearchedFieldIrrelevant(Searched, st, field, value, query);
  }
}
