/** COFF objects as the auditor sees them after the section and symbol walks. */
module Coff {
  import opened Wrappers
  import opened MachineWir
  import opened Octets

  function ReadU16(bytes: seq<Byte>, at: nat): (r: Option<nat>)
    ensures r.Some? <==> at + 2 <= |bytes|
  {
    if at + 2 <= |bytes| then Some(LittleEndian(bytes[at..at + 2])) else None
  }

  function ReadU32(bytes: seq<Byte>, at: nat): (r: Option<nat>)
    ensures r.Some? <==> at + 4 <= |bytes|
  {
    if at + 4 <= |bytes| then Some(LittleEndian(bytes[at..at + 4])) else None
  }

  /** `declared` is the MachineWir section it implements; `code` holds when its characteristics,
      alignment aside, are those of code. */
  datatype Section = Section(
    name: string, declared: Option<nat>, code: bool, fileOffset: nat, fileBytes: nat, relocationOffset: nat,
    relocationCount: nat)

  datatype Definition = FunctionSymbol(callee: nat) | RuntimeSymbol(intrinsic: Intrinsic) | OtherSymbol

  /** Per COFF symbol, `targets` holds a section number plus one, or zero for a symbol that may not be
      relocated against; `required` a MachineWir symbol number plus one, or zero. */
  datatype Object = Object(
    bytes: seq<Byte>, sections: seq<Section>, targets: seq<nat>, required: seq<nat>, symbols: seq<Definition>)

  function At(s: seq<nat>, k: nat): nat { if k < |s| then s[k] else 0 }

  const RELOCATION_BYTES := 10
  const ADDR32NB := 2
  const BRANCH26 := 3

  datatype Record = Record(offset: nat, symbol: nat, kind: nat)

  /** The record at a position: a 32-bit offset, a 32-bit symbol number and a 16-bit kind. */
  function RecordAt(bytes: seq<Byte>, at: nat): (r: Option<Record>)
    ensures r.Some? <==> at + RELOCATION_BYTES <= |bytes|
  {
    if at + RELOCATION_BYTES <= |bytes|
    then Some(Record(ReadU32(bytes, at).value, ReadU32(bytes, at + 4).value, ReadU16(bytes, at + 8).value))
    else None
  }

  function RelocationAt(o: Object, s: Section, k: nat): Option<Record>
  {
    RecordAt(o.bytes, s.relocationOffset + k * RELOCATION_BYTES)
  }
}
