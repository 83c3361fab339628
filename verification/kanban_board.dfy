/**
 * The Kanban board: projects are grouped by status (`reduce` into a record
 * of arrays), and four fixed columns show the group of their status with its
 * size. A project whose status names no column is on no column.
 */
module Kanban {
  import opened Seqs
  import opened Projects

  datatype Column = Column(id: string, title: string, colorClass: string)

  const Columns: seq<Column> := [
    Column("released", "Recently Released", "bg-green-50 border-green-200 text-green-600"),
    Column("ongoing", "Ongoing", "bg-blue-50 border-blue-200 text-blue-600"),
    Column("consideration", "Under Consideration", "bg-purple-50 border-purple-200 text-purple-600"),
    Column("backlog", "Backlog", "bg-gray-50 border-gray-200 text-gray-600")
  ]

  /** The column ids in display order. */
  function ColumnIds(columns: seq<Column>): (ids: seq<string>)
    ensures |ids| == |columns| && forall i :: 0 <= i < |columns| ==> ids[i] == columns[i].id
  {
    if columns == [] then [] else [columns[0].id] + ColumnIds(columns[1..])
  }

  /** The board's columns are released, ongoing, consideration and backlog, in that order. */
  lemma ColumnOrder()
    ensures ColumnIds(Columns) == ["released", "ongoing", "consideration", "backlog"]
  {
  }

  /**
   * `groupedProjects`: one group per status that occurs, holding that
   * status's projects in input order; `statuses` are the record's keys in
   * insertion order. Every project is in exactly one group, so the group
   * sizes add up to the number of projects.
   */
  method GroupProjects(projects: seq<Project>) returns (statuses: seq<string>, grouped: map<string, seq<Project>>)
    ensures Distinct(statuses) && grouped.Keys == set s | s in statuses
    ensures forall s :: s in grouped <==> exists p :: p in projects && p.status == s
    ensures forall s :: s in grouped ==> grouped[s] == Select(projects, StatusOf, s)
    ensures SizeSum(projects, StatusOf, statuses) == |projects|
  {
    statuses, grouped := GroupBy(projects, StatusOf);
    forall s | s in grouped ensures exists p :: p in projects && p.status == s {
      var p := grouped[s][0];
      SelectMembers(projects, StatusOf, s, p);
    }
    GroupSizesSumToLength(projects, StatusOf, statuses);
  }

  /** Each project is in the group of its own status and in no other group. */
  lemma ExactlyOneGroup(projects: seq<Project>, grouped: map<string, seq<Project>>, p: Project)
    requires forall s :: s in grouped <==> exists p :: p in projects && p.status == s
    requires forall s :: s in grouped ==> grouped[s] == Select(projects, StatusOf, s)
    requires p in projects
    ensures p.status in grouped && p in grouped[p.status]
    ensures forall s :: s in grouped && s != p.status ==> p !in grouped[s]
  {
    SelectMembers(projects, StatusOf, p.status, p);
    forall s | s in grouped && s != p.status ensures p !in grouped[s] {
      SelectMembers(projects, StatusOf, s, p);
    }
  }

  /** The badge count of a column: `groupedProjects[column.id]?.length || 0`. */
  function ColumnCount(grouped: map<string, seq<Project>>, id: string): (n: nat)
    ensures id !in grouped ==> n == 0
  {
    if id in grouped then |grouped[id]| else 0
  }

  /** The cards a column shows: its group, or none (the placeholder) when the group is absent or empty. */
  function ColumnProjects(grouped: map<string, seq<Project>>, id: string): (ps: seq<Project>)
    ensures |ps| == ColumnCount(grouped, id)
  {
    if id in grouped && |grouped[id]| > 0 then grouped[id] else []
  }

  /** Every card on the board, column by column. */
  function Shown(grouped: map<string, seq<Project>>, ids: seq<string>): seq<Project> {
    if ids == [] then [] else ColumnProjects(grouped, ids[0]) + Shown(grouped, ids[1..])
  }

  /** A column's count is the number of projects with its status. */
  lemma ColumnCountIsStatusCount(projects: seq<Project>, grouped: map<string, seq<Project>>, id: string)
    requires forall s :: s in grouped <==> exists p :: p in projects && p.status == s
    requires forall s :: s in grouped ==> grouped[s] == Select(projects, StatusOf, s)
    ensures ColumnCount(grouped, id) == |Select(projects, StatusOf, id)|
    ensures ColumnProjects(grouped, id) == Select(projects, StatusOf, id)
  {
    if id !in grouped {
      SelectMissing(projects, StatusOf, id);
    }
  }

  /** A project is on the board exactly when its status is one of the column ids. */
  lemma {:induction false} ShownIffColumnStatus(projects: seq<Project>, grouped: map<string, seq<Project>>, ids: seq<string>, p: Project)
    requires forall s :: s in grouped <==> exists p :: p in projects && p.status == s
    requires forall s :: s in grouped ==> grouped[s] == Select(projects, StatusOf, s)
    ensures p in Shown(grouped, ids) <==> p in projects && p.status in ids
  {
    if ids != [] {
      var column := ColumnProjects(grouped, ids[0]);
      assert Shown(grouped, ids) == column + Shown(grouped, ids[1..]);
      ShownIffColumnStatus(projects, grouped, ids[1..], p);
      ColumnCountIsStatusCount(projects, grouped, ids[0]);
      SelectMembers(projects, StatusOf, ids[0], p);
      assert p in column <==> p in projects && p.status == ids[0];
      assert ids == [ids[0]] + ids[1..];
    }
  }

  /** A 'submitted' idea, whose status names no column, is not rendered. */
  lemma SubmittedIsHidden(projects: seq<Project>, grouped: map<string, seq<Project>>, p: Project)
    requires forall s :: s in grouped <==> exists p :: p in projects && p.status == s
    requires forall s :: s in grouped ==> grouped[s] == Select(projects, StatusOf, s)
    requires p.status == "submitted"
    ensures p !in Shown(grouped, ColumnIds(Columns))
  {
    ColumnOrder();
    ShownIffColumnStatus(projects, grouped, ColumnIds(Columns), p);
  }
}
