/**
 * What the core needs to know of names and records. The record classes themselves are not part of
 * this model; a record is a value with the fields the core reads (owner, type, class, TTL, and for
 * a signature the type it covers) plus its remaining data as canonical bytes.
 */
module Records {

  /** A domain name: its labels and whether it is absolute (fully qualified). */
  datatype Name = Name(labels: seq<string>, absolute: bool)

  /** Name.root, the absolute empty name. */
  const Root: Name := Name([], true)

  const SOA: int := 6
  const RRSIG: int := 46

  /**
   * A resource record. `covered` is the type a signature covers (part of an RRSIG's data and
   * ignored for other types); `rdata` is the rest of the data in canonical wire form.
   */
  datatype Record = Record(name: Name, rrType: int, dclass: int, ttl: int, covered: int, rdata: seq<int>)

  /** An RRSIG record (the Java subclass RRSIGRecord). */
  predicate IsSig(r: Record) {
    r.rrType == RRSIG
  }

  /** Record.getRRsetType: the covered type for a signature, the record's own type otherwise. */
  function RRsetType(r: Record): int {
    if IsSig(r) then r.covered else r.rrType
  }

  /** The identity of the RRset a record belongs to. */
  function Key(r: Record): (Name, int, int) {
    (r.name, RRsetType(r), r.dclass)
  }

  /** Record.sameRRset: same owner name, RRset type and class. */
  predicate SameRRset(a: Record, b: Record) {
    Key(a) == Key(b)
  }

  /** The fields Record.equals compares: the TTL is left out, and `covered` counts only for a signature. */
  function Compared(r: Record): Record {
    r.(ttl := 0, covered := if IsSig(r) then r.covered else 0)
  }

  /** Record.equals: everything but the TTL. */
  predicate SameData(a: Record, b: Record) {
    Compared(a) == Compared(b)
  }

  /** Record.cloneRecord followed by setTTL: a copy with another TTL; the original is a value and stays. */
  function WithTtl(r: Record, ttl: int): (c: Record)
    ensures SameData(c, r) && c.ttl == ttl
  {
    r.(ttl := ttl)
  }
}
