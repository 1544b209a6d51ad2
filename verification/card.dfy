/** The project card of the project list, reduced to its status badge. */
module Card {
  /** The badge: approved and not finished is "Ongoing", finished is "Completed"
      whether approved or not, anything else is "New". */
  function StatusLabel(isApproved: bool, status: bool): (r: string)
    ensures r in {"Ongoing", "Completed", "New"}
    ensures r == "Ongoing" <==> isApproved && !status
    ensures r == "Completed" <==> status
    ensures r == "New" <==> !isApproved && !status
  {
    if isApproved && !status then "Ongoing"
    else if status then "Completed"
    else "New"
  }
}
