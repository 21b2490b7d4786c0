/** Drive modes of trains: a number of five bits that says protocol, speed steps and, for DCC,
    whether a long address is forced. */
module DriveModes {
  import opened Wrappers

  type Mode = nat

  const DEFAULT: Mode := 0
  const OLCBUSER: Mode := 1
  const MARKLIN_DEFAULT: Mode := 4
  const MARKLIN_NEW: Mode := 6
  const DCC_DEFAULT: Mode := 8
  const DCC_DEFAULT_LONG: Mode := 12
  const DCC_128: Mode := 11

  datatype AddressType = Unspecified | Unsupported | MM | DccShort | DccLong

  predicate IsMarklin(mode: Mode) { mode / 4 % 8 == 1 }

  predicate IsDcc(mode: Mode) { mode / 8 % 4 == 1 }

  predicate ForcesLong(mode: Mode) { mode / 4 % 2 == 1 }

  /** dcc_mode_to_address_type */
  function AddressTypeOf(mode: Mode, address: nat): AddressType {
    if mode == DEFAULT then Unspecified
    else if IsMarklin(mode) then MM
    else if IsDcc(mode) then (if ForcesLong(mode) || address >= 128 then DccLong else DccShort)
    else Unsupported
  }

  /** dcc_mode_to_protocol */
  function ProtocolOf(mode: Mode): Mode {
    if mode == DEFAULT || mode == OLCBUSER then mode
    else if IsMarklin(mode) then MARKLIN_DEFAULT
    else if IsDcc(mode) then DCC_DEFAULT
    else mode
  }

  /** The kind of train that is made for a mode on the target; hosts also make one for the fake drive
      mode 1. */
  function Implementation(mode: Mode, address: nat): Option<AddressType> {
    match mode
    case 5 => Some(MM)
    case 4 => Some(MM)
    case 6 => Some(MM)
    case 7 => Some(MM)
    case 9 => Some(DccKind(mode, address))
    case 13 => Some(DccKind(mode, address))
    case 10 => Some(DccKind(mode, address))
    case 14 => Some(DccKind(mode, address))
    case 11 => Some(DccKind(mode, address))
    case 15 => Some(DccKind(mode, address))
    case _ => None
  }

  function DccKind(mode: Mode, address: nat): AddressType {
    if ForcesLong(mode) || address >= 128 then DccLong else DccShort
  }

  /** A train that is made has the address type its mode names. */
  lemma ImplementationMatches(mode: Mode, address: nat)
    ensures Implementation(mode, address).Some? ==> Implementation(mode, address).value == AddressTypeOf(mode, address)
  {
  }

  /** Among the modes of five bits, those without an implementation on the target are the ones that
      name no address type, and the two DCC modes that leave the speed steps open. */
  lemma NotImplementedExactly(mode: Mode, address: nat)
    requires mode < 32
    ensures Implementation(mode, address).None? <==>
              AddressTypeOf(mode, address) in {Unspecified, Unsupported} || mode == DCC_DEFAULT || mode == DCC_DEFAULT_LONG
  {
  }

  /** The modes of five bits by their numbers: 4 to 7 are Marklin, 8 to 15 are DCC and the upper four of
      them force a long address; a short address has at most seven bits. */
  lemma AddressTypesAre(mode: Mode, address: nat)
    requires mode < 32
    ensures AddressTypeOf(mode, address) == DccShort <==> 8 <= mode <= 11 && address <= 127
    ensures AddressTypeOf(mode, address) == DccLong <==> 12 <= mode <= 15 || (8 <= mode <= 11 && address > 127)
    ensures AddressTypeOf(mode, address) == MM <==> 4 <= mode <= 7
    ensures AddressTypeOf(mode, address) == Unspecified <==> mode == 0
  {
  }

  /** Two modes have the same protocol exactly when they are the same, both Marklin or both DCC. */
  lemma SameProtocolExactly(a: Mode, b: Mode)
    requires a < 32 && b < 32
    ensures ProtocolOf(a) == ProtocolOf(b) <==> a == b || (4 <= a <= 7 && 4 <= b <= 7) || (8 <= a <= 15 && 8 <= b <= 15)
  {
  }
}
