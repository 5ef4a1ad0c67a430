/** The records the scheduler reads and writes.

    Store timestamps (objects carrying `seconds`) are plain integer seconds here,
    and a field that is absent or otherwise falsy in a record is the empty string. */
module TicketTypes {

  /** The value of `assigned_agent` that asks the scheduler to pick an agent; also the
      bucket under which the scheduler counts tickets with no agent at all. */
  const AutoAssignSentinel: string := "Auto Assign"

  /** The bucket under which the reporting count files tickets with no agent. */
  const UnassignedBucket: string := "Unassigned"

  /** The only agent status that makes an on-shift agent unavailable. */
  const OfflineStatus: string := "Offline"

  /** The status an output record gets when the ticket has none. */
  const PendingStatus: string := "Pending"

  /** An agent record. `name` (not the store id) is the key tickets are assigned under. */
  datatype Agent = Agent(name: string, shiftStart: int, shiftEnd: int, status: string)

  /** A ticket record; `assignedAgent == ""` stands for an absent or falsy value. */
  datatype Ticket = Ticket(title: string, dueDate: int, assignedAgent: string, status: string)

  /** One entry of the queue the scheduler returns (and tries to save). */
  datatype TicketSummary = TicketSummary(title: string, dueDate: int, assignedAgent: string, status: string)

  /** JavaScript's `s || fallback` on a string: the fallback when `s` is falsy. */
  function OrElse(s: string, fallback: string): string
  {
    if s == "" then fallback else s
  }

  /** The load map's view of an agent: the ticket count under its name, 0 when missing. */
  function Load(loads: map<string, int>, name: string): int
  {
    if name in loads then loads[name] else 0
  }
}
