/** Installation statuses and how a category sums up what lies below it. */
module Statuses {
  datatype Status = Installed | NotInstalled | PartiallyInstalled | NoStatus

  /** What a parent with status `p` becomes once a child with status `c` has been visited. */
  function Join(p: Status, c: Status): Status {
    match c
    case NoStatus => p
    case PartiallyInstalled => PartiallyInstalled
    case _ => if p == NoStatus then c else if p != c then PartiallyInstalled else p
  }

  /** Everything a set of statuses says, without any order. */
  function Summary(s: set<Status>): Status {
    if PartiallyInstalled in s || (Installed in s && NotInstalled in s) then PartiallyInstalled
    else if Installed in s then Installed
    else if NotInstalled in s then NotInstalled
    else NoStatus
  }

  /** Joining summaries is summing up the union: the lattice law behind the propagation. */
  lemma JoinIsUnion(a: set<Status>, b: set<Status>)
    ensures Join(Summary(a), Summary(b)) == Summary(a + b)
  {
  }
}
