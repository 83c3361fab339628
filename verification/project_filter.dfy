/**
 * The search effect of the projects hook: an empty query shows every
 * project; otherwise a project is shown when its lower-cased title or
 * description contains the lower-cased query. The source list is never
 * changed: the search returns a new list.
 */
module ProjectSearch {
  import opened Ascii
  import opened Seqs
  import opened Projects

  /** The filter test for a query that is already lower-cased. */
  predicate Matches(p: Project, query: string) {
    Includes(ToLower(p.title), query) || Includes(ToLower(p.description), query)
  }

  /** The filtered list for `searchQuery` (the falsy empty query applies no filter). */
  function Search(projects: seq<Project>, searchQuery: string): (result: seq<Project>)
    ensures searchQuery == "" ==> result == projects
    ensures |result| <= |projects|
  {
    if searchQuery == "" then projects
    else
      var query := ToLower(searchQuery);
      Filter(projects, p => Matches(p, query))
  }

  /** The title or description contains the query, ignoring ASCII case. */
  ghost predicate MentionsIgnoringCase(p: Project, searchQuery: string) {
    (exists i: nat :: OccursAt(ToLower(p.title), ToLower(searchQuery), i))
    || (exists i: nat :: OccursAt(ToLower(p.description), ToLower(searchQuery), i))
  }

  /** A non-empty query keeps exactly the projects that mention it, ignoring case. */
  lemma SearchMembers(projects: seq<Project>, searchQuery: string, p: Project)
    requires searchQuery != ""
    ensures p in Search(projects, searchQuery) <==> p in projects && MentionsIgnoringCase(p, searchQuery)
  {
    var query := ToLower(searchQuery);
    FilterMembers(projects, p => Matches(p, query), p);
  }

  /** The result lists projects of the input in their input order. */
  lemma SearchKeepsOrder(projects: seq<Project>, searchQuery: string)
    ensures exists idx :: Embeds(Search(projects, searchQuery), projects, idx)
  {
    if searchQuery == "" {
      var idx := seq(|projects|, i requires 0 <= i < |projects| => i as nat);
      assert forall i :: 0 <= i < |idx| ==> idx[i] == i;
      assert Embeds(projects, projects, idx);
      assert Embeds(Search(projects, searchQuery), projects, idx);
    } else {
      var query := ToLower(searchQuery);
      var idx := FilterPositions(projects, p => Matches(p, query));
      assert Embeds(Search(projects, searchQuery), projects, idx);
    }
  }

  /** Queries that differ only in letter case select the same projects. */
  lemma SearchIgnoresQueryCase(projects: seq<Project>, q1: string, q2: string)
    requires q1 != "" && q2 != "" && ToLower(q1) == ToLower(q2)
    ensures Search(projects, q1) == Search(projects, q2)
  {
  }

  /** Titles that differ only in letter case are found by the same queries. */
  lemma SearchIgnoresTitleCase(p1: Project, p2: Project, searchQuery: string)
    requires searchQuery != ""
    requires ToLower(p1.title) == ToLower(p2.title) && p1.description == p2.description
    ensures p1 in Search([p1], searchQuery) <==> p2 in Search([p2], searchQuery)
  {
    SearchMembers([p1], searchQuery, p1);
    SearchMembers([p2], searchQuery, p2);
  }
}
