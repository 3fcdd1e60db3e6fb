/** Authenticated encryption, symbolically: a box opens under the key it was sealed with and under no other. */
module Sealing {
  import opened Protocol

  type Bytes = string

  /** `Garbage` is anything that no key opens. */
  datatype Blob = Sealed(key: Bytes, nonce: nat, plain: Bytes) | Garbage(raw: Bytes)

  function Seal(key: Bytes, nonce: nat, plain: Bytes): Blob {
    Sealed(key, nonce, plain)
  }

  function Open(key: Bytes, blob: Blob): Option<Bytes> {
    if blob.Sealed? && blob.key == key then Some(blob.plain) else None
  }

  /** The wrapped data keys of the owners. */
  type KeyTable = map<Owner, Blob>

  predicate ValidOwner(o: Owner) {
    o.kind != "" && o.id != ""
  }

  /** The data key the table gives an owner under a master key. */
  function DataKey(table: KeyTable, master: Bytes, o: Owner): Option<Bytes> {
    if o in table then Open(master, table[o]) else None
  }

  /** Insert that leaves an existing row alone. */
  function InsertIfAbsent(table: KeyTable, o: Owner, wrapped: Blob): KeyTable {
    if o in table then table else table[o := wrapped]
  }
}
