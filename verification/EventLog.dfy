/** The append-only event log of a session that starts with no earlier events. */
module EventLog {
  import opened Models

  /** Sequence numbers are contiguous from 1. */
  ghost predicate Contiguous(events: seq<Event>) {
    forall i | 0 <= i < |events| :: events[i].seqNo == i + 1
  }

  class EventLog {
    var lastSeq: nat
    var events: seq<Event>

    ghost predicate Valid()
      reads this
    {
      lastSeq == |events| && Contiguous(events)
    }

    constructor ()
      ensures Valid() && events == []
    {
      lastSeq, events := 0, [];
    }

    function NextSeq(): (n: nat)
      requires Valid()
      reads this
      ensures n == |events| + 1
    {
      lastSeq + 1
    }

    method Append(eventId: string, eventType: EventType, fault: Option<Fault>, phase: Option<Phase>,
                  context: Option<Context>, outcome: Option<Outcome>, details: Details) returns (event: Event)
      requires Valid()
      modifies this
      ensures Valid() && events == old(events) + [event]
      ensures event == Event(old(|events|) + 1, eventId, eventType, fault, phase, context, outcome, details)
    {
      lastSeq := lastSeq + 1;
      event := Event(lastSeq, eventId, eventType, fault, phase, context, outcome, details);
      events := events + [event];
    }
  }
}
