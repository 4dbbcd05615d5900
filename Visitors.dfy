/**
 * The records the visitors screen works on: visitors with their status and
 * time events, tariffs, and the payloads of the actions the screen dispatches.
 */
module Visitors {
  import opened Wrappers

  /** A visitor's status; `Code` gives the number stored in the records. */
  datatype Status = Active | Pause | Finished {

    /** active = 0, pause = 1, finished = 2 */
    function Code(): (c: nat)
      ensures c < 3
      ensures (c == 0) == Active?
      ensures (c == 2) == Finished?
    {
      match this
      case Active => 0
      case Pause => 1
      case Finished => 2
    }
  }

  /** Reads a stored status number back; numbers outside 0..2 are no status. */
  function StatusFromCode(c: int): (r: Option<Status>)
    ensures r.Some? <==> 0 <= c < 3
    ensures r.Some? ==> r.value.Code() == c
  {
    if c == 0 then Some(Active)
    else if c == 1 then Some(Pause)
    else if c == 2 then Some(Finished)
    else None
  }

  lemma StatusCodeRoundTrip(s: Status)
    ensures StatusFromCode(s.Code()) == Some(s)
  {
  }

  /** One entry of a visitor's `times`: the status it entered and when (milliseconds). */
  datatype TimeEntry = TimeEntry(status: Status, timestamp: int)

  datatype Visitor = Visitor(
    id: int,
    name: string,
    tariffId: int,
    discount: int,
    times: seq<TimeEntry>,
    status: Status)

  /** A tariff's availability; only active tariffs are offered in the tariff column. */
  datatype TariffStatus = TariffActive | TariffInactive

  datatype Tariff = Tariff(
    id: int,
    title: string,
    cost: real,
    maxCost: real,
    isDuration: bool,
    status: TariffStatus)

  /** Payload of the add action. */
  datatype NewVisitor = NewVisitor(name: string, tariffId: int, discount: int)

  /** Payload of the event action: visitor `id` enters `status` at `timestamp`. */
  datatype EventUser = EventUser(timestamp: int, status: Status, id: int)

  /** The actions the screen dispatches to the store, as they appear in its log. */
  datatype Action =
    | Add(visitor: NewVisitor)
    | Event(event: EventUser)
    | HistoryPut
    | ModalHistoryToggle(open: bool)

  /**
   * The row a table column validator is given: a row being added has no id
   * yet, and a field the operator has not filled in is undefined.
   */
  datatype RowData = RowData(id: Option<int>, name: Option<string>, tariffId: Option<int>)
}
