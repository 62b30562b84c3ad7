/**
 * The [Flags] enumeration TerrainFeatures: 23 members, one bit each, held
 * in a 32-bit integer that the map file prints as a decimal int.
 */
module TerrainFeatures {

  /** A TerrainFeatures value: the enum's underlying 32-bit int, as bits. */
  type Flags = bv32

  datatype Feature =
    | Small | Large | Sea | SomeWater | Mountain | Swamp | Waste | Forest
    | Farm | NoStart | ManySites | Deep | Cave | FireSite | AirSite
    | WaterSite | EarthSite | AstralSite | DeathSite | NatureSite
    | BloodSite | PriestSite | EdgeMount

  const None: Flags := 0

  /** The declared value of each member. */
  function Value(f: Feature): Flags {
    match f
    case Small => 1
    case Large => 2
    case Sea => 4
    case SomeWater => 8
    case Mountain => 16
    case Swamp => 32
    case Waste => 64
    case Forest => 128
    case Farm => 256
    case NoStart => 512
    case ManySites => 1024
    case Deep => 2048
    case Cave => 4096
    case FireSite => 8192
    case AirSite => 16384
    case WaterSite => 32768
    case EarthSite => 65536
    case AstralSite => 131072
    case DeathSite => 262144
    case NatureSite => 524288
    case BloodSite => 1048576
    case PriestSite => 2097152
    case EdgeMount => 4194304
  }

  /** The position of a member's bit: declaration order, Small first. */
  function Bit(f: Feature): (b: nat)
    ensures b < 23
  {
    match f
    case Small => 0 case Large => 1 case Sea => 2 case SomeWater => 3
    case Mountain => 4 case Swamp => 5 case Waste => 6 case Forest => 7
    case Farm => 8 case NoStart => 9 case ManySites => 10 case Deep => 11
    case Cave => 12 case FireSite => 13 case AirSite => 14 case WaterSite => 15
    case EarthSite => 16 case AstralSite => 17 case DeathSite => 18
    case NatureSite => 19 case BloodSite => 20 case PriestSite => 21
    case EdgeMount => 22
  }

  /** The member whose bit is b. */
  function FeatureAt(b: nat): Feature
    requires b < 23
  {
    [Small, Large, Sea, SomeWater, Mountain, Swamp, Waste, Forest, Farm,
     NoStart, ManySites, Deep, Cave, FireSite, AirSite, WaterSite, EarthSite,
     AstralSite, DeathSite, NatureSite, BloodSite, PriestSite, EdgeMount][b]
  }

  /** Enum.HasFlag: every bit of flag is set in value. */
  predicate HasFlag(value: Flags, flag: Feature) {
    value & Value(flag) == Value(flag)
  }

  /** `value |= flag`. */
  function With(value: Flags, flag: Feature): Flags {
    value | Value(flag)
  }

  /** The (int) cast of a TerrainFeatures value (two's complement). */
  function ToInt(value: Flags): int {
    if value < 0x8000_0000 then value as int else value as int - 0x1_0000_0000
  }

  /** The OR of a list of members. */
  function Combine(fs: seq<Feature>): Flags {
    if fs == [] then None else Value(fs[0]) | Combine(fs[1..])
  }

  const AllFeatures: seq<Feature> :=
    [Small, Large, Sea, SomeWater, Mountain, Swamp, Waste, Forest, Farm,
     NoStart, ManySites, Deep, Cave, FireSite, AirSite, WaterSite, EarthSite,
     AstralSite, DeathSite, NatureSite, BloodSite, PriestSite, EdgeMount]

  /** Each member's declared value is the power of two at its bit position. */
  lemma ValueIsPowerOfTwo(f: Feature)
    ensures Value(f) == (1 as bv32) << Bit(f)
  {
  }

  /** The bit position gives back the member. */
  lemma BitRoundTrip(f: Feature)
    ensures FeatureAt(Bit(f)) == f
  {
  }

  /** Two powers of two below 2^23 with different exponents share no bit. */
  lemma PowersDisjoint(a: nat, b: nat)
    requires a < 23 && b < 23 && a != b
    ensures ((1 as bv32) << a) & ((1 as bv32) << b) == 0
  {
  }

  /** Different members have different bit positions, hence different values. */
  lemma BitIsInjective(f: Feature, g: Feature)
    ensures Bit(f) == Bit(g) <==> f == g
  {
    BitRoundTrip(f);
    BitRoundTrip(g);
  }

  /** Two different members share no bit. */
  lemma MembersDisjoint(f: Feature, g: Feature)
    requires f != g
    ensures Value(f) & Value(g) == 0
  {
    BitIsInjective(f, g);
    ValueIsPowerOfTwo(f);
    ValueIsPowerOfTwo(g);
    PowersDisjoint(Bit(f), Bit(g));
  }

  /** Setting a member's bit makes HasFlag report it. */
  lemma WithSets(value: Flags, f: Feature)
    ensures HasFlag(With(value, f), f)
  {
    OrSelf(value, Value(f));
  }

  /** Setting one member's bit leaves every other member's HasFlag as it was. */
  lemma WithKeepsOthers(value: Flags, f: Feature, g: Feature)
    requires Bit(g) != Bit(f)
    ensures HasFlag(With(value, f), g) == HasFlag(value, g)
  {
    ValueIsPowerOfTwo(f);
    ValueIsPowerOfTwo(g);
    PowersDisjoint(Bit(f), Bit(g));
    OrDisjoint(value, Value(f), Value(g));
  }

  /** An OR of members reports through HasFlag exactly the members that were OR-ed. */
  lemma {:induction false} HasFlagCombine(fs: seq<Feature>, g: Feature)
    ensures HasFlag(Combine(fs), g) <==> g in fs
  {
    if fs != [] {
      HasFlagCombine(fs[1..], g);
      if g == fs[0] {
        WithSets(Combine(fs[1..]), g);
      } else {
        BitIsInjective(fs[0], g);
        WithKeepsOthers(Combine(fs[1..]), fs[0], g);
      }
      assert Combine(fs) == With(Combine(fs[1..]), fs[0]);
      assert g in fs <==> g == fs[0] || g in fs[1..];
    }
  }

  /** Any OR of members uses only the low 23 bits, so the (int) cast is the non-negative value. */
  lemma {:induction false} CombineFitsInt(fs: seq<Feature>)
    ensures Combine(fs) & !0x7F_FFFF == 0
    ensures 0 <= ToInt(Combine(fs)) < 0x80_0000
  {
    if fs == [] {
      LowBits(Combine(fs));
    } else {
      CombineFitsInt(fs[1..]);
      ValueIsPowerOfTwo(fs[0]);
      SmallPower(Bit(fs[0]));
      LowBits(Combine(fs));
    }
  }

  lemma OrDisjoint(v: Flags, a: Flags, b: Flags)
    requires a & b == 0
    ensures ((v | a) & b == b) <==> (v & b == b)
  {
  }

  lemma OrSelf(v: Flags, a: Flags)
    ensures (v | a) & a == a
  {
  }

  lemma LowBits(x: Flags)
    requires x & !0x7F_FFFF == 0
    ensures x <= 0x7F_FFFF && 0 <= ToInt(x) < 0x80_0000
  {
  }

  lemma SmallPower(a: nat)
    requires a < 23
    ensures ((1 as bv32) << a) & !0x7F_FFFF == 0
  {
  }

  lemma AllLowBitsSet(x: Flags)
    requires x & !0x7F_FFFF == 0
    requires x & 0x1 != 0 && x & 0x2 != 0 && x & 0x4 != 0 && x & 0x8 != 0
    requires x & 0x10 != 0 && x & 0x20 != 0 && x & 0x40 != 0 && x & 0x80 != 0
    requires x & 0x100 != 0 && x & 0x200 != 0 && x & 0x400 != 0 && x & 0x800 != 0
    requires x & 0x1000 != 0 && x & 0x2000 != 0 && x & 0x4000 != 0 && x & 0x8000 != 0
    requires x & 0x1_0000 != 0 && x & 0x2_0000 != 0 && x & 0x4_0000 != 0 && x & 0x8_0000 != 0
    requires x & 0x10_0000 != 0 && x & 0x20_0000 != 0 && x & 0x40_0000 != 0
    ensures x == 0x7F_FFFF
  {
  }

  /** Every feature is among all the features combined. */
  lemma AllFeaturesPresent(g: Feature)
    ensures HasFlag(Combine(AllFeatures), g)
  {
    HasFlagCombine(AllFeatures, g);
    assert g in AllFeatures by { ValueIsPowerOfTwo(g); }
  }

  /** A value within the low 23 bits that has every feature is 2^23 - 1. */
  lemma EveryFlagIsAll(x: Flags)
    requires x & !0x7F_FFFF == 0
    requires forall g :: HasFlag(x, g)
    ensures x == 0x7F_FFFF
  {
    assert HasFlag(x, Small) && HasFlag(x, Large) && HasFlag(x, Sea) && HasFlag(x, SomeWater);
    assert HasFlag(x, Mountain) && HasFlag(x, Swamp) && HasFlag(x, Waste) && HasFlag(x, Forest);
    assert HasFlag(x, Farm) && HasFlag(x, NoStart) && HasFlag(x, ManySites) && HasFlag(x, Deep);
    assert HasFlag(x, Cave) && HasFlag(x, FireSite) && HasFlag(x, AirSite) && HasFlag(x, WaterSite);
    assert HasFlag(x, EarthSite) && HasFlag(x, AstralSite) && HasFlag(x, DeathSite);
    assert HasFlag(x, NatureSite) && HasFlag(x, BloodSite) && HasFlag(x, PriestSite) && HasFlag(x, EdgeMount);
    AllLowBitsSet(x);
  }

  /** The OR of all members is 2^23 - 1. */
  lemma AllFeaturesCombine()
    ensures Combine(AllFeatures) == 0x7F_FFFF
    ensures ToInt(Combine(AllFeatures)) == 0x7F_FFFF
  {
    forall g: Feature ensures HasFlag(Combine(AllFeatures), g) {
      AllFeaturesPresent(g);
    }
    CombineFitsInt(AllFeatures);
    EveryFlagIsAll(Combine(AllFeatures));
  }
}
