/** Record types that backend/app/fsm.go and backend/app/workflow/fsm.go
    declare identically, and the event descriptor of the state-machine
    library both of them feed. */
module FsmTypes {

  datatype Header = Header(name: string, value: string)

  /** A configured edge of the stage graph. */
  datatype Transition = Transition(name: string, from: string, to: string)

  /** The state-machine library's event descriptor: an event name, the
      states it may fire from and the state it leads to. */
  datatype EventDesc = EventDesc(name: string, src: seq<string>, dst: string)

  datatype CloudServer = CloudServer(id: int, name: string)

  /** The decoded server-list response of the cloud API. */
  datatype CloudServers = CloudServers(servers: seq<CloudServer>)

  /** The zero value of `CloudServers`. */
  const NoServers := CloudServers([])

  /** The effect of a successful `SaveInStore`: `content` serialised into
      the file named `path`. */
  datatype FileWrite = FileWrite(path: string, content: CloudServers)

  /** The event list both workflows hand to the state machine: one event
      per transition, in order, firing from the transition's source to its
      target. */
  method BuildEvents(transitions: seq<Transition>) returns (events: seq<EventDesc>)
    ensures |events| == |transitions|
    ensures forall i :: 0 <= i < |transitions| ==>
              events[i].name == transitions[i].name && events[i].src == [transitions[i].from] && events[i].dst == transitions[i].to
  {
    events := [];
    for i := 0 to |transitions|
      invariant |events| == i
      invariant forall j :: 0 <= j < i ==>
                  events[j].name == transitions[j].name && events[j].src == [transitions[j].from] && events[j].dst == transitions[j].to
    {
      var t := transitions[i];
      events := events + [EventDesc(t.name, [t.from], t.to)];
    }
  }
}
