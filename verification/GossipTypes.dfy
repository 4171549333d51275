/** Fixed-width integers and the parsed gossip messages the server stores and re-serializes. */
module GossipTypes {
  type U8 = n: nat | n < 0x100
  type U16 = n: nat | n < 0x1_0000
  type U32 = n: nat | n < 0x1_0000_0000
  type U64 = n: nat | n < 0x1_0000_0000_0000_0000
  type Bytes = seq<U8>

  const U32_MAX: U32 := 0xFFFF_FFFF
  const U64_MAX: U64 := 0xFFFF_FFFF_FFFF_FFFF

  /** A compressed public key: the parity byte, 2 or 3, and the 32-byte coordinate. */
  datatype NodeId = NodeId(odd: bool, coordinate: Bytes)

  /** Feature vectors are opaque byte strings whose length fits the two-byte prefix. */
  type Features = b: Bytes | |b| < 0x1_0000

  /** The five values of a channel update that a delta may leave out. */
  datatype RoutingValues = RoutingValues(
    cltvExpiryDelta: U16,
    htlcMinimumMsat: U64,
    feeBaseMsat: U32,
    feeProportionalMillionths: U32,
    htlcMaximumMsat: U64)

  const ZERO_VALUES := RoutingValues(0, 0, 0, 0, 0)

  datatype ChannelUpdate = ChannelUpdate(scid: U64, timestamp: U32, channelFlags: U8, values: RoutingValues)

  datatype ChannelAnnouncement = ChannelAnnouncement(scid: U64, features: Features, nodeId1: NodeId, nodeId2: NodeId)

  /** Bit 0 of `channel_flags` selects the direction. */
  predicate DirectionOf(flags: U8) {
    flags % 2 == 1
  }

  /** Bit 1 of `channel_flags` disables the direction. */
  predicate DisabledBy(flags: U8) {
    flags / 2 % 2 == 1
  }

  /** The flag byte of a direction: what a reminder carries. */
  function FlagsFor(direction: bool, disabled: bool): (flags: U8)
    ensures DirectionOf(flags) == direction && DisabledBy(flags) == disabled && flags < 4
  {
    (if direction then 1 else 0) + (if disabled then 2 else 0)
  }

  function Num(b: bool): nat {
    if b then 1 else 0
  }

  /** One Boolean per routing value. */
  datatype FieldMask = FieldMask(
    cltvExpiryDelta: bool,
    htlcMinimumMsat: bool,
    feeBaseMsat: bool,
    feeProportionalMillionths: bool,
    htlcMaximumMsat: bool)
  {
    function Or(other: FieldMask): FieldMask {
      FieldMask(
        cltvExpiryDelta || other.cltvExpiryDelta,
        htlcMinimumMsat || other.htlcMinimumMsat,
        feeBaseMsat || other.feeBaseMsat,
        feeProportionalMillionths || other.feeProportionalMillionths,
        htlcMaximumMsat || other.htlcMaximumMsat)
    }

    predicate Covers(other: FieldMask) {
      Or(other) == this
    }
  }

  const EMPTY_MASK := FieldMask(false, false, false, false, false)
  const FULL_MASK := FieldMask(true, true, true, true, true)

  /** The routing values on which `a` and `b` disagree. */
  function Difference(a: RoutingValues, b: RoutingValues): FieldMask {
    FieldMask(
      a.cltvExpiryDelta != b.cltvExpiryDelta,
      a.htlcMinimumMsat != b.htlcMinimumMsat,
      a.feeBaseMsat != b.feeBaseMsat,
      a.feeProportionalMillionths != b.feeProportionalMillionths,
      a.htlcMaximumMsat != b.htlcMaximumMsat)
  }

  /** `base` with the masked values replaced by those of `news`. */
  function Merge(base: RoutingValues, mask: FieldMask, news: RoutingValues): RoutingValues {
    RoutingValues(
      if mask.cltvExpiryDelta then news.cltvExpiryDelta else base.cltvExpiryDelta,
      if mask.htlcMinimumMsat then news.htlcMinimumMsat else base.htlcMinimumMsat,
      if mask.feeBaseMsat then news.feeBaseMsat else base.feeBaseMsat,
      if mask.feeProportionalMillionths then news.feeProportionalMillionths else base.feeProportionalMillionths,
      if mask.htlcMaximumMsat then news.htlcMaximumMsat else base.htlcMaximumMsat)
  }

  /** Of the two defined flags the lower selects the direction and the higher disables it. */
  lemma FlagBits(flags: U8)
    requires flags < 4
    ensures flags == (if DirectionOf(flags) then 1 else 0) + (if DisabledBy(flags) then 2 else 0)
  {
  }
}
