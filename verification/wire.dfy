/** The two tunnel message schemas and the opaque codec (protobuf serialisation and
    snappy compression) that turns them into frame payloads. */
module Wire {
  import opened Bytes

  /** Messages from the local agent to the remote agent. */
  datatype ClientMsg =
    | Request(password: Bytes, cmd: nat, addr: Bytes, port: nat)
    | ClientData(data: Bytes)

  /** Messages from the remote agent to the local agent. Unset protobuf fields read as 0. */
  datatype ServerMsg =
    | Response(rep: nat, addr: nat, port: nat)
    | ServerData(data: Bytes)

  /** Protobuf and snappy are foreign libraries: they enter the model as uninterpreted
      functions. `uncompress` is total because the caller ignores snappy's success flag and
      parses whatever it produced. */
  datatype Codec = Codec(
    serializeClient: ClientMsg -> Bytes,
    parseClient: Bytes -> Option<ClientMsg>,
    serializeServer: ServerMsg -> Bytes,
    parseServer: Bytes -> Option<ServerMsg>,
    compress: Bytes -> Bytes,
    uncompress: Bytes -> Bytes)

  /** The only facts about the libraries the round-trip lemmas rely on. */
  ghost predicate Lawful(c: Codec)
  {
    && (forall m :: c.parseClient(c.serializeClient(m)) == Some(m))
    && (forall m :: c.parseServer(c.serializeServer(m)) == Some(m))
    && (forall b :: c.uncompress(c.compress(b)) == b)
  }

  /** Client-to-server payloads are serialised, then compressed. */
  function ClientPayload(c: Codec, m: ClientMsg): Bytes
  {
    c.compress(c.serializeClient(m))
  }

  /** The remote agent decompresses a payload, then parses it. */
  function ReadClientPayload(c: Codec, p: Bytes): Option<ClientMsg>
  {
    c.parseClient(c.uncompress(p))
  }

  lemma ClientPayloadRoundTrip(c: Codec, m: ClientMsg)
    requires Lawful(c)
    ensures ReadClientPayload(c, ClientPayload(c, m)) == Some(m)
  {
  }

  /** Server-to-client payloads are serialised but not compressed. */
  function ServerPayload(c: Codec, m: ServerMsg): Bytes
  {
    c.serializeServer(m)
  }

  lemma ServerPayloadRoundTrip(c: Codec, m: ServerMsg)
    requires Lawful(c)
    ensures c.parseServer(ServerPayload(c, m)) == Some(m)
  {
  }
}
