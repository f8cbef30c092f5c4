module ClientTable {
  import opened Base

  /** The client fields that `mu` protects. `pending` maps a sequence number to a call. */
  datatype Table = Table(seqNo: nat, pending: map<nat, nat>, closing: bool, shutdown: bool)

  function New(): Table { Table(1, map[], false, false) }

  function Register(t: Table, c: nat): (Table, Option<nat>) {
    if t.closing || t.shutdown then (t, None)
    else (t.(pending := t.pending[t.seqNo := c], seqNo := t.seqNo + 1), Some(t.seqNo))
  }

  function Remove(t: Table, s: nat): (Table, Option<nat>) {
    (t.(pending := t.pending - {s}), if s in t.pending then Some(t.pending[s]) else None)
  }

  function Close(t: Table): Table { t.(closing := true) }

  function Terminate(t: Table): Table { t.(shutdown := true) }
}
