/** The ICE server lists handed to both peers of a session. */
module IceTypes {
  import opened Options

  datatype TurnCreds = TurnCreds(urls: seq<string>, username: string, credential: string)

  datatype IceServers = IceServers(stun: seq<string>, turn: Option<TurnCreds>)
}
