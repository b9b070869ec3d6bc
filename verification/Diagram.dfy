/** What the published automaton (diagrams/protocol_fsm_client.dot) does on a message of the server. */
module Diagram {
  import opened Commands

  /** The kinds of messages the diagram tells apart; `Unlisted` stands for everything else that arrives. */
  datatype Kind = PositiveReply | NegativeReply | ChatMessage | ErrorMessage | ByeMessage | Unlisted

  /** Where an edge leads: a state, or the end with or without an ERR sent on the way. `NoEdge`: nothing happens. */
  datatype Destination = To(state: AppState) | End(err: bool) | NoEdge

  function Published(state: AppState, kind: Kind): Destination {
    match (state, kind)
    case (_, ErrorMessage) => End(false)
    case (_, ByeMessage) => End(false)
    case (Auth, PositiveReply) => To(Open)
    case (Auth, NegativeReply) => To(Auth)
    case (Open, PositiveReply) => End(true)
    case (Open, NegativeReply) => End(true)
    case (Join, PositiveReply) => To(Open)
    case (Join, NegativeReply) => To(Open)
    case (Auth, ChatMessage) => End(true)
    case (Open, ChatMessage) => To(Open)
    case (Join, ChatMessage) => To(Join)
    case _ => NoEdge
  }

  /** A client in `from` is now in `to`, or has ended, possibly with an ERR: that is what the destination asks for. */
  predicate Arrives(from: AppState, to: AppState, ended: bool, err: bool, d: Destination) {
    match d
    case To(state) => !ended && to == state
    case End(due) => ended && (due ==> err)
    case NoEdge => !ended && to == from
  }
}
