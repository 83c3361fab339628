/**
 * The status badge: a colour class and a label for each of the stored
 * statuses; any other string gets the grey class and is shown as is.
 */
module StatusBadge {
  import opened Projects

  const Gray := "bg-gray-500 text-white"

  /** The statuses the badge knows by name. */
  const BadgeStatuses: seq<string> := ["ongoing", "released", "consideration", "backlog"]

  function StatusClass(status: string): (c: string)
    ensures status == "ongoing" ==> c == "bg-blue-500 text-white"
    ensures status == "released" ==> c == "bg-green-500 text-white"
    ensures status == "consideration" ==> c == "bg-purple-500 text-white"
    // 'backlog' and every unknown status look the same
    ensures c == Gray <==> status != "ongoing" && status != "released" && status != "consideration"
  {
    match status
    case "ongoing" => "bg-blue-500 text-white"
    case "released" => "bg-green-500 text-white"
    case "consideration" => "bg-purple-500 text-white"
    case "backlog" => Gray
    case _ => Gray
  }

  function StatusText(status: string): (t: string)
    ensures status == "ongoing" ==> t == "Ongoing"
    ensures status == "released" ==> t == "Released"
    ensures status == "consideration" ==> t == "Under Consideration"
    ensures status == "backlog" ==> t == "Backlog"
    ensures status !in BadgeStatuses ==> t == status
  {
    match status
    case "ongoing" => "Ongoing"
    case "released" => "Released"
    case "consideration" => "Under Consideration"
    case "backlog" => "Backlog"
    case _ => status
  }

  /** The four known statuses get four different labels, none of them the raw status. */
  lemma KnownLabelsDistinct(a: string, b: string)
    requires a in BadgeStatuses && b in BadgeStatuses
    ensures StatusText(a) == StatusText(b) <==> a == b
    ensures StatusText(a) != a
  {
  }

  /** Every stored status except 'submitted' has a label of its own; 'submitted' is shown raw and grey. */
  lemma StoredStatusesOnBadge(s: string)
    requires s in StoredStatuses
    ensures s != "submitted" <==> StatusText(s) != s
    ensures s == "submitted" ==> StatusClass(s) == Gray
  {
  }

  /** A status spelled like a label ('Ongoing') is shown exactly like the status it names. */
  lemma LabelLookalike()
    ensures StatusText("Ongoing") == StatusText("ongoing")
    ensures StatusClass("Ongoing") != StatusClass("ongoing")
  {
  }
}
