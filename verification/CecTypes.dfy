/** Names shared by the whole model: logical addresses, device types and physical addresses. */
module CecTypes {

  datatype Option<+T> = None | Some(value: T)

  /** A logical address on the bus. 15 is both "unregistered" and "broadcast". */
  type Address = a: int | 0 <= a < 16

  /** The members of s below i: what a loop over the addresses has gone through. */
  function Below(s: set<Address>, i: nat): set<Address> {
    set a | a in s && a < i
  }

  const TV: Address := 0
  const RECORDING_DEVICE1: Address := 1
  const RECORDING_DEVICE2: Address := 2
  const TUNER1: Address := 3
  const PLAYBACK_DEVICE1: Address := 4
  const AUDIO_SYSTEM: Address := 5
  const TUNER2: Address := 6
  const TUNER3: Address := 7
  const PLAYBACK_DEVICE2: Address := 8
  const RECORDING_DEVICE3: Address := 9
  const TUNER4: Address := 10
  const PLAYBACK_DEVICE3: Address := 11
  const UNREGISTERED: Address := 15

  datatype DeviceType = TvType | RecordingDevice | Reserved | Tuner | PlaybackDevice | AudioSystem

  function GetType(a: Address): DeviceType {
    match a
    case 0 => TvType
    case 1 | 2 | 9 => RecordingDevice
    case 3 | 6 | 7 | 10 => Tuner
    case 4 | 8 | 11 => PlaybackDevice
    case 5 => AudioSystem
    case _ => Reserved
  }

  /** A physical address is a 16-bit word of four nibbles. */
  type PhysicalAddress = p: int | 0 <= p < 0x1_0000

  const MIN_PHYSICAL_ADDRESS: PhysicalAddress := 0x1000
  const MAX_PHYSICAL_ADDRESS: PhysicalAddress := 0xFFFE
  const INVALID_PHYSICAL_ADDRESS: PhysicalAddress := 0xFFFF
  const DEFAULT_PHYSICAL_ADDRESS: PhysicalAddress := 0x1000

  predicate IsValidPhysicalAddress(p: PhysicalAddress) {
    MIN_PHYSICAL_ADDRESS <= p <= MAX_PHYSICAL_ADDRESS
  }
}
