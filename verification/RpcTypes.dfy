/** What travels on one RPC connection. */
module RpcTypes {
  import opened Base

  type Value = string

  /** `codec.Header`: an empty `error` means success. */
  datatype Header = Header(serviceMethod: string, seqNo: nat, error: string)

  /** A frame's second half: a request's arguments, a reply, or the server's
      `invalidRequest` placeholder. */
  datatype Body = Args(v: Value) | Reply(v: Value) | Invalid

  /** The codec writes a frame as two separate encodings, so a frame is two tokens. */
  datatype Token = H(h: Header) | B(b: Body)

  /** What a service method returned. */
  type Outcome = Result<Value>

  /** The workload (what call number c asks for) and the services: `may(m, a, r)` says
      that method m may return r on arguments a. `timeout` 0 means no limit. */
  datatype Config = Config(
    meth: nat -> string,
    args: nat -> Value,
    may: (string, Value, Outcome) -> bool,
    known: set<string>,
    timeout: nat)
}
