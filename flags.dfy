/**
 * The grid cell word of src/world.rs (`Flag`, a `u32` bitflags value).
 *
 * The word has two parts: the ten low bits are kind flags, and the 22 high
 * bits (`RESOURCE_QUANTITY`) hold a resource count. The model keeps the two
 * parts apart. The kind bits are a `bv10`, so that every bitwise operation on
 * them is exactly Rust's. The count is a bounded `nat`, because every use of
 * it in the program is arithmetic.
 *
 * A bitflags mask used against a cell (`!Flag::MULTIVAC_FOOD`,
 * `Flag::KIND_MASK`, ...) covers some kind bits and either all or none of the
 * quantity bits. That holds for every mask the program builds from its
 * constants.
 */
module Flags {

  // kind flags, the ten low bits of the word
  const EMPTY: bv10 := 0x000
  const FLOWER: bv10 := 0x001
  const TREE: bv10 := 0x002
  const VOLCANO: bv10 := 0x004
  const COLONY_C: bv10 := 0x008
  const COLONY_M: bv10 := 0x010
  const COLONY_Y: bv10 := 0x020
  const MULTIVAC: bv10 := 0x040
  const WIRE: bv10 := 0x080
  const OUTPOST: bv10 := 0x100
  const CONNECTED: bv10 := 0x200

  // helper sets of kind flags
  const HIVE_FOOD: bv10 := 0x001
  const MULTIVAC_FOOD: bv10 := 0x007
  const WALL: bv10 := 0x006
  const COLONY_ALL: bv10 := 0x038

  /** `RESOURCE_QUANTITY.trailing_zeros()`: the count sits above the ten kind bits. */
  const QUANTITY_SHIFT: nat := 10
  /** `2^RESOURCE_QUANTITY.leading_ones() - 1` */
  const MAX_RESOURCE_COUNT: nat := 0x3F_FFFF
  /** How many counts the 22 quantity bits can hold. */
  const QUANTITY_RANGE: nat := 0x40_0000

  /** `Flower::MAX`, `Tree::MAX` and `Colony::MAX`: the count a new flower, tree or colony holds. */
  const FLOWER_MAX: nat := 1000
  const TREE_MAX: nat := 1000
  const COLONY_MAX: nat := 1000

  /** A `u32`. */
  type U32 = n: nat | n < 0x1_0000_0000
  /** A count that fits in the 22 quantity bits. */
  type Quantity = q: nat | q <= MAX_RESOURCE_COUNT

  /** A cell word: its kind bits and its resource count. */
  datatype Flag = Flag(kind: bv10, quantity: Quantity)

  /** A bitflags mask: some kind bits, and all of the quantity bits or none. */
  datatype Mask = Mask(kinds: bv10, quantityBits: bool)

  /** A constant such as `Flag::TREE` used as a whole word: those kinds, count 0. */
  function Word(kinds: bv10): Flag {
    Flag(kinds, 0)
  }

  /** A constant such as `Flag::TREE` used as a mask. */
  function Kinds(kinds: bv10): Mask {
    Mask(kinds, false)
  }

  /** `Flag::KIND_MASK`: every kind bit, no quantity bit. */
  const KIND_MASK: Mask := Mask(0x3FF, false)
  /** `Flag::RESOURCE_QUANTITY`: every quantity bit, no kind bit. */
  const RESOURCE_QUANTITY: Mask := Mask(0x000, true)

  /** Bitwise complement of a mask (`!m`). */
  function Not(m: Mask): Mask {
    Mask(!m.kinds, !m.quantityBits)
  }

  /** Bitwise and of two masks (`a & b`). */
  function And(a: Mask, b: Mask): Mask {
    Mask(a.kinds & b.kinds, a.quantityBits && b.quantityBits)
  }

  /** `Flag::intersects`: the word and the mask share a set bit. */
  predicate Intersects(f: Flag, m: Mask) {
    f.kind & m.kinds != 0 || (m.quantityBits && f.quantity != 0)
  }

  /** `Flag::is_empty`: no bit of the word is set, kind or quantity. */
  predicate IsEmpty(f: Flag) {
    f.kind == EMPTY && f.quantity == 0
  }

  /** `f & m`: the bits of the word that the mask covers. */
  function Masked(f: Flag, m: Mask): (r: Flag)
    ensures r.kind & !m.kinds == 0
    ensures r.kind & m.kinds == f.kind & m.kinds
    ensures !m.quantityBits ==> r.quantity == 0
    ensures m.quantityBits ==> r.quantity == f.quantity
  {
    Flag(f.kind & m.kinds, if m.quantityBits then f.quantity else 0)
  }

  /** `f |= kinds`: the kind bits are added, the count is untouched. */
  function Insert(f: Flag, kinds: bv10): (r: Flag)
    ensures r.quantity == f.quantity
    ensures r.kind & kinds == kinds
    ensures r.kind & !kinds == f.kind & !kinds
  {
    Flag(f.kind | kinds, f.quantity)
  }

  /** `f &= !kinds`: the kind bits are removed, the count is untouched. */
  function Remove(f: Flag, kinds: bv10): (r: Flag)
    ensures r.quantity == f.quantity
    ensures r.kind & kinds == 0
    ensures r.kind | (f.kind & kinds) == f.kind
  {
    Masked(f, Not(Kinds(kinds)))
  }

  /** `Flag::get_resource_quantity`: the count held in the quantity bits. */
  function GetResourceQuantity(f: Flag): Quantity {
    f.quantity
  }

  /**
   * `Flag::set_resource_quantity`: the kind bits are kept and the quantity
   * bits are replaced by `count << 10`, which drops the ten high bits of
   * `count`.
   */
  function SetResourceQuantity(f: Flag, count: U32): (r: Flag)
    ensures r.kind == f.kind
    ensures count <= MAX_RESOURCE_COUNT ==> r.quantity == count
  {
    Flag(f.kind, count % QUANTITY_RANGE)
  }

  /** The kind constants are ten distinct single bits, and the helper sets are their unions. */
  lemma LayoutConsistent()
    ensures KIND_MASK.kinds == FLOWER | TREE | VOLCANO | COLONY_C | COLONY_M | COLONY_Y
                               | MULTIVAC | WIRE | OUTPOST | CONNECTED
    ensures HIVE_FOOD == FLOWER
    ensures MULTIVAC_FOOD == FLOWER | TREE | VOLCANO
    ensures WALL == TREE | VOLCANO
    ensures COLONY_ALL == COLONY_C | COLONY_M | COLONY_Y
    ensures MAX_RESOURCE_COUNT + 1 == QUANTITY_RANGE
    ensures Not(KIND_MASK) == RESOURCE_QUANTITY
  {
  }

  /** The unit test `quantity_bits` of src/world.rs, on a FLOWER word. */
  lemma QuantityBitsTest()
    ensures GetResourceQuantity(Word(FLOWER)) == 0
    ensures GetResourceQuantity(SetResourceQuantity(Word(FLOWER), 100)) == 100
    ensures GetResourceQuantity(SetResourceQuantity(Word(FLOWER), 1000)) == 1000
    ensures GetResourceQuantity(SetResourceQuantity(Word(FLOWER), MAX_RESOURCE_COUNT)) == MAX_RESOURCE_COUNT
  {
  }

  /** A count too wide for 22 bits loses its high bits: `1 << 22` stores as 0. */
  lemma WideCountTruncated()
    ensures SetResourceQuantity(Word(FLOWER), QUANTITY_RANGE) == Word(FLOWER)
  {
  }

  /**
   * `intersects` with a mask that covers no quantity bit only looks at the kind
   * bits, so masking the word with `KIND_MASK` first changes nothing.
   */
  lemma KindMaskIrrelevant(f: Flag, kinds: bv10)
    ensures Intersects(Masked(f, KIND_MASK), Kinds(kinds)) <==> Intersects(f, Kinds(kinds))
    ensures Intersects(f, Kinds(kinds)) <==> f.kind & kinds != 0
  {
  }

  /**
   * A complemented kind set also covers every quantity bit: a word with a
   * non-zero count intersects `!kinds` whatever its kind bits.
   */
  lemma ComplementCoversQuantity(f: Flag, kinds: bv10)
    requires f.quantity != 0
    ensures Intersects(f, Not(Kinds(kinds)))
    ensures Intersects(f, Not(Kinds(kinds))) != Intersects(f, And(Not(Kinds(kinds)), KIND_MASK))
            || f.kind & !kinds != 0
  {
  }

  /** Only the all-zero word is empty: `Flag::EMPTY` is the one empty value. */
  lemma EmptyIsUnique(f: Flag)
    ensures IsEmpty(f) <==> f == Word(EMPTY)
  {
  }
}
