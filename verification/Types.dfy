/** The row projections the dependency engine works on. */
module Types {
  import opened Graph

  datatype Option<+T> = None | Some(value: T)

  /** The four ticket statuses; `Unknown` stands for any other string, in particular
      for the status of a dependency that is not among the tickets. */
  datatype Status = Pending | Ready | Active | Done | Unknown

  datatype TicketNode = TicketNode(
    id: Id,
    status: Status,
    estimatedMinutes: Option<int>,
    epicId: Option<Id>,
    ticketNumber: Option<int>,
    title: Option<string>)

  datatype EpicNode = EpicNode(id: Id, epicNumber: Option<int>, title: Option<string>)

  /** The tickets by id; when an id repeats, the last row wins, as in a dict. */
  function Rows(tickets: seq<TicketNode>): (m: map<Id, TicketNode>)
    ensures forall id | id in m :: m[id].id == id && m[id] in tickets
    ensures forall t | t in tickets :: t.id in m
  {
    if |tickets| == 0 then map[]
    else
      var last := tickets[|tickets| - 1];
      assert forall t | t in tickets :: t == last || t in tickets[..|tickets| - 1];
      Rows(tickets[..|tickets| - 1])[last.id := last]
  }
}
