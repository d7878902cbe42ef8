/** packet/types/flag_group.py: named flags packed into one byte, and read back. */
module Flags {
  /** A flag is one bit, or a number kept in the bits of mask, shift places up. */
  datatype Flag = Bit(mask: bv8) | Number(mask: bv8, shift: nat)

  datatype Setting = On(on: bool) | Amount(n: bv8)

  function Up(n: bv8, shift: nat): bv8
    requires shift <= 8
  {
    n << shift
  }

  function Down(n: bv8, shift: nat): bv8
    requires shift <= 8
  {
    n >> shift
  }

  /** One step of from_kwargs; QOSFlag.write and WillQOSFlag.write for numbers. */
  function Write(flag: Flag, data: bv8, setting: Setting): bv8
    requires Fits(flag, setting)
  {
    match flag
    case Bit(mask) => if setting.on then data | mask else data & !mask
    case Number(mask, shift) => (data & !mask) | Up(setting.n, shift)
  }

  /** One step of from_int. */
  function Read(flag: Flag, data: bv8): Setting
    requires flag.Number? ==> flag.shift <= 8
  {
    match flag
    case Bit(mask) => On(data & mask != 0)
    case Number(mask, shift) => Amount(Down(data & mask, shift))
  }

  predicate Fits(flag: Flag, setting: Setting) {
    match flag
    case Bit(mask) => mask != 0 && setting.On?
    case Number(mask, shift) =>
      && shift <= 8 && setting.Amount?
      && Up(setting.n, shift) & mask == Up(setting.n, shift) && Down(Up(setting.n, shift), shift) == setting.n
  }

  predicate Disjoint(flags: seq<Flag>) {
    forall i, j :: 0 <= i < j < |flags| ==> flags[i].mask & flags[j].mask == 0
  }

  predicate AllFit(flags: seq<Flag>, settings: seq<Setting>) {
    |flags| == |settings| && forall i :: 0 <= i < |flags| ==> Fits(flags[i], settings[i])
  }

  /** from_kwargs: the flags written one after another into a byte of zeros. */
  function Packed(flags: seq<Flag>, settings: seq<Setting>): bv8
    requires AllFit(flags, settings)
  {
    if flags == [] then 0
    else
      var last := |flags| - 1;
      Write(flags[last], Packed(flags[..last], settings[..last]), settings[last])
  }

  lemma ReadWritten(flag: Flag, data: bv8, setting: Setting)
    requires Fits(flag, setting)
    ensures Read(flag, Write(flag, data, setting)) == setting
  {
    hide Write, Up, Down;
    WriteInside(flag, data, setting);
  }

  lemma WriteInside(flag: Flag, data: bv8, setting: Setting)
    requires Fits(flag, setting)
    ensures Write(flag, data, setting) & flag.mask == Lit(flag, setting)
  {
    hide Up, Down;
    match flag
    case Bit(mask) =>
      OwnBit(data, mask);
    case Number(mask, shift) =>
      OwnPart(data, mask, Up(setting.n, shift));
  }

  /** The bits of its mask a written flag sets. */
  function Lit(flag: Flag, setting: Setting): bv8
    requires Fits(flag, setting)
  {
    match flag
    case Bit(mask) => if setting.on then mask else 0
    case Number(mask, shift) => Up(setting.n, shift)
  }

  lemma OwnBit(data: bv8, mask: bv8)
    ensures (data | mask) & mask == mask && (data & !mask) & mask == 0
  {
  }

  lemma OwnPart(data: bv8, mask: bv8, part: bv8)
    requires part & mask == part
    ensures ((data & !mask) | part) & mask == part
  {
  }

  /** Writing a flag leaves the bits outside its mask alone. */
  lemma WriteOutside(flag: Flag, data: bv8, setting: Setting, other: bv8)
    requires Fits(flag, setting) && flag.mask & other == 0
    ensures Write(flag, data, setting) & other == data & other
  {
    hide Up, Down;
    match flag
    case Bit(mask) =>
      OtherBit(data, mask, other);
    case Number(mask, shift) =>
      OtherPart(data, mask, other, Up(setting.n, shift));
  }

  lemma OtherBit(data: bv8, mask: bv8, other: bv8)
    requires mask & other == 0
    ensures (data | mask) & other == data & other && (data & !mask) & other == data & other
  {
  }

  lemma OtherPart(data: bv8, mask: bv8, other: bv8, part: bv8)
    requires part & mask == part && mask & other == 0
    ensures ((data & !mask) | part) & other == data & other
  {
  }

  /** Flags on separate bits come back from the byte they were packed into, whatever the group. */
  lemma {:induction false} FlagsUnpack(flags: seq<Flag>, settings: seq<Setting>, i: nat)
    requires AllFit(flags, settings) && Disjoint(flags) && i < |flags|
    ensures Read(flags[i], Packed(flags, settings)) == settings[i]
    decreases |flags|
  {
    hide Read, Write;
    var last := |flags| - 1;
    var before := Packed(flags[..last], settings[..last]);
    if i == last {
      ReadWritten(flags[last], before, settings[last]);
    } else {
      assert flags[..last][i] == flags[i] && settings[..last][i] == settings[i];
      FlagsUnpack(flags[..last], settings[..last], i);
      Swap(flags[i].mask, flags[last].mask);
      WriteOutside(flags[last], before, settings[last], flags[i].mask);
      ReadSame(flags[i], before, Write(flags[last], before, settings[last]));
    }
  }

  lemma ReadSame(flag: Flag, data: bv8, other: bv8)
    requires data & flag.mask == other & flag.mask && (flag.Number? ==> flag.shift <= 8)
    ensures Read(flag, data) == Read(flag, other)
  {
  }

  lemma Swap(a: bv8, b: bv8)
    ensures a & b == b & a
  {
  }

  /** PacketFlagGroup.from_kwargs. */
  method FromKwargs(flags: seq<Flag>, settings: seq<Setting>) returns (data: bv8)
    requires AllFit(flags, settings)
    ensures data == Packed(flags, settings)
  {
    hide Write, Fits;
    data := 0;
    for i := 0 to |flags|
      invariant data == Packed(flags[..i], settings[..i])
    {
      assert flags[..i + 1][..i] == flags[..i] && settings[..i + 1][..i] == settings[..i];
      data := Write(flags[i], data, settings[i]);
    }
    assert flags[..|flags|] == flags && settings[..|settings|] == settings;
  }

  /** PacketFlagGroup.from_int. */
  method FromInt(flags: seq<Flag>, data: bv8) returns (settings: seq<Setting>)
    requires forall flag :: flag in flags && flag.Number? ==> flag.shift <= 8
    ensures |settings| == |flags| && forall i :: 0 <= i < |flags| ==> settings[i] == Read(flags[i], data)
  {
    hide Read;
    settings := [];
    for i := 0 to |flags|
      invariant |settings| == i && forall j :: 0 <= j < i ==> settings[j] == Read(flags[j], data)
    {
      settings := settings + [Read(flags[i], data)];
    }
  }

  const PUBLISH_FLAGS := [Bit(0x01), Number(0x06, 1)]

  const CONNECT_FLAGS := [Bit(0x02), Bit(0x04), Bit(0x20), Bit(0x40), Bit(0x80), Number(0x18, 3)]

  lemma GroupsDisjoint()
    ensures Disjoint(PUBLISH_FLAGS) && Disjoint(CONNECT_FLAGS)
  {
  }
}
