/** The states of a muduo TcpConnection. */
module ConnectionPhase {

  datatype Phase = Connecting | Connected | Disconnecting | Disconnected
}
