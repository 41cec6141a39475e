/**
 Quirk masks: the `u32` accumulator of the quirk engine and the `driver_info`
 word it is built from. The numeric values of the named `USB_QUIRK_*` bits
 live in a header that is not part of this model, so they are a parameter
 (`QuirkBits`) and every property is proved for all of their values.
 */
module QuirkFlags {

  /** A quirk mask, `u32` in the source. */
  type Mask = bv32

  /** Every bit set in `a` is also set in `b` (the mask `a` is a subset of `b`). */
  predicate Subset(a: Mask, b: Mask) {
    a & b == a
  }

  /** Bit `b` of a mask is set. */
  predicate MaskBit(x: Mask, b: bv32)
    requires b < 32
  {
    (x >> b) & 1 == 1
  }

  /** Bit `b` of a driver_info word is set. */
  predicate InfoBit(x: bv64, b: bv64)
    requires b < 64
  {
    (x >> b) & 1 == 1
  }

  /** The `(u32)` cast of a `kernel_ulong_t` driver_info word: the high half is
      dropped, and each of the 32 low bits is carried over unchanged. */
  function Truncate(info: bv64): (q: Mask)
    ensures forall b: bv32 :: b < 32 ==> (MaskBit(q, b) <==> InfoBit(info, b as bv64))
  {
    var q := (info & 0xFFFF_FFFF) as bv32;
    LowWordBits(info, q);
    q
  }

  /** The low word of `info` holds its 32 low bits. */
  lemma LowWordBits(info: bv64, q: Mask)
    requires q == (info & 0xFFFF_FFFF) as bv32
    ensures forall b: bv32 :: b < 32 ==> (MaskBit(q, b) <==> InfoBit(info, b as bv64))
  {
    forall b: bv32 | b < 32
      ensures MaskBit(q, b) <==> InfoBit(info, b as bv64)
    {
      LowWordBit(info, q, b);
    }
  }

  lemma LowWordBit(info: bv64, q: Mask, b: bv32)
    requires q == (info & 0xFFFF_FFFF) as bv32
    requires b < 32
    ensures MaskBit(q, b) <==> InfoBit(info, b as bv64)
  {
  }

  /** A 32-bit value widened to driver_info and cast back is unchanged,
      whatever the high half of the word holds. */
  lemma TruncateKeepsLowWord(x: Mask, high: bv64)
    ensures Truncate((high << 32) | x as bv64) == x
    ensures Truncate(x as bv64) == x
  {
  }

  /** Subset is a partial order on masks: two masks that contain each other are equal. */
  lemma SubsetAntisymmetric(a: Mask, b: Mask)
    requires Subset(a, b) && Subset(b, a)
    ensures a == b
  {
  }

  lemma SubsetTransitive(a: Mask, b: Mask, c: Mask)
    requires Subset(a, b) && Subset(b, c)
    ensures Subset(a, c)
  {
  }

  /** A mask that contains two masks contains their union. */
  lemma SubsetOfOr(a: Mask, b: Mask, u: Mask)
    requires Subset(a, u) && Subset(b, u)
    ensures Subset(a | b, u)
  {
  }

  lemma SubsetReflexive(a: Mask)
    ensures Subset(a, a)
  {
  }

  lemma OrIdempotent(a: Mask)
    ensures a | a == a
  {
  }

  /** A mask contained in `b` is contained in `b` ORed with anything. */
  lemma SubsetWidens(a: Mask, b: Mask, c: Mask)
    requires Subset(a, b)
    ensures Subset(a, b | c) && Subset(a, c | b)
  {
  }

  /** Both operands of an OR are contained in it. */
  lemma SubsetOfOrLeft(a: Mask, b: Mask)
    ensures Subset(a, a | b) && Subset(b, a | b)
  {
  }

  /** The named quirks, `USB_QUIRK_<name>`. */
  datatype Quirk =
    | StringFetch255 | ResetResume | NoSetIntf | ConfigIntfStrings | ResetMorphs
    | HonorBNumInterfaces | DelayInit | DeviceQualifier | IgnoreRemoteWakeup | OtgPet

  /** The values of the named quirk bits. */
  datatype QuirkBits = QuirkBits(
    stringFetch255: Mask,       // USB_QUIRK_STRING_FETCH_255
    resetResume: Mask,          // USB_QUIRK_RESET_RESUME
    noSetIntf: Mask,            // USB_QUIRK_NO_SET_INTF
    configIntfStrings: Mask,    // USB_QUIRK_CONFIG_INTF_STRINGS
    resetMorphs: Mask,          // USB_QUIRK_RESET_MORPHS
    honorBNumInterfaces: Mask,  // USB_QUIRK_HONOR_BNUMINTERFACES
    delayInit: Mask,            // USB_QUIRK_DELAY_INIT
    deviceQualifier: Mask,      // USB_QUIRK_DEVICE_QUALIFIER
    ignoreRemoteWakeup: Mask,   // USB_QUIRK_IGNORE_REMOTE_WAKEUP
    otgPet: Mask                // USB_QUIRK_OTG_PET
  ) {

    /** The value of one named quirk. */
    function Value(q: Quirk): (v: Mask) {
      match q
      case StringFetch255 => stringFetch255
      case ResetResume => resetResume
      case NoSetIntf => noSetIntf
      case ConfigIntfStrings => configIntfStrings
      case ResetMorphs => resetMorphs
      case HonorBNumInterfaces => honorBNumInterfaces
      case DelayInit => delayInit
      case DeviceQualifier => deviceQualifier
      case IgnoreRemoteWakeup => ignoreRemoteWakeup
      case OtgPet => otgPet
    }

    function All(): (values: seq<Mask>) {
      [stringFetch255, resetResume, noSetIntf, configIntfStrings, resetMorphs,
       honorBNumInterfaces, delayInit, deviceQualifier, ignoreRemoteWakeup, otgPet]
    }

    /** The header assigns each quirk its own non-empty set of bits. */
    predicate Distinct() {
      && (forall i :: 0 <= i < |All()| ==> All()[i] != 0)
      && (forall i, j :: 0 <= i < j < |All()| ==> All()[i] & All()[j] == 0)
    }
  }
}
