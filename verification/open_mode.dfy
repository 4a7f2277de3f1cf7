/** The `OpenMode` flag set of the `File` interface: an 8-bit value whose
    bits are the named flags, combined and tested bitwise. */
module OpenModes {

  /** `enum class OpenMode : uint8_t`: any byte value, named or not. */
  datatype OpenMode = OpenMode(bits: bv8)

  const None: OpenMode := OpenMode(0)
  const Read: OpenMode := OpenMode(1)
  const Write: OpenMode := OpenMode(2)
  const Append: OpenMode := OpenMode(4)
  const Binary: OpenMode := OpenMode(8)

  /** A single flag: exactly one bit set. */
  predicate IsFlag(f: OpenMode) {
    f.bits != 0 && f.bits & (f.bits - 1) == 0
  }

  /** `has(value, flag)`: the two share a set bit. */
  function Has(value: OpenMode, flag: OpenMode): (b: bool)
    ensures b ==> value != None && flag != None
  {
    value.bits & flag.bits != 0
  }

  /** `operator|`: the union of two flag sets. */
  function Or(a: OpenMode, b: OpenMode): (m: OpenMode)
    ensures a.bits <= m.bits && b.bits <= m.bits
  {
    OpenMode(a.bits | b.bits)
  }

  /** `operator&`: the intersection of two flag sets. */
  function And(a: OpenMode, b: OpenMode): (m: OpenMode)
    ensures m.bits <= a.bits && m.bits <= b.bits
  {
    OpenMode(a.bits & b.bits)
  }

  /** A flag is in a union exactly when it is in either operand. */
  lemma HasOr(a: OpenMode, b: OpenMode, f: OpenMode)
    ensures Has(Or(a, b), f) <==> Has(a, f) || Has(b, f)
  {
  }

  /** A single flag is in an intersection exactly when it is in both
      operands (for a multi-bit `f` only the forward direction holds). */
  lemma HasAnd(a: OpenMode, b: OpenMode, f: OpenMode)
    ensures Has(And(a, b), f) ==> Has(a, f) && Has(b, f)
    ensures IsFlag(f) ==> (Has(And(a, b), f) <==> Has(a, f) && Has(b, f))
  {
  }

  /** `has` is the test "the intersection is not empty". */
  lemma HasIsAndNotNone(v: OpenMode, f: OpenMode)
    ensures Has(v, f) <==> And(v, f) != None
  {
  }

  /** `|` and `&` are commutative. */
  lemma Commutative(a: OpenMode, b: OpenMode)
    ensures Or(a, b) == Or(b, a) && And(a, b) == And(b, a)
  {
  }

  /** `|` and `&` are associative. */
  lemma Associative(a: OpenMode, b: OpenMode, c: OpenMode)
    ensures Or(Or(a, b), c) == Or(a, Or(b, c))
    ensures And(And(a, b), c) == And(a, And(b, c))
  {
  }

  /** `|` and `&` are idempotent; `None` is the identity of `|` and absorbs `&`. */
  lemma Idempotent(a: OpenMode)
    ensures Or(a, a) == a && And(a, a) == a
    ensures Or(a, None) == a && And(a, None) == None
  {
  }

  /** The named flags are distinct single bits, `None` is empty, and a
      combination contains each named flag it was built from. */
  lemma NamedFlags()
    ensures IsFlag(Read) && IsFlag(Write) && IsFlag(Append) && IsFlag(Binary)
    ensures And(Read, Write) == None && And(Read, Append) == None && And(Read, Binary) == None
    ensures And(Write, Append) == None && And(Write, Binary) == None && And(Append, Binary) == None
    ensures forall f :: !Has(None, f)
    ensures forall a, b :: IsFlag(a) ==> Has(Or(a, b), a)
  {
  }

  /** Every flag set is a combination of the four named flags and the
      three unnamed high bits; `Has` sees exactly the named ones. */
  lemma FlagsDetermineMode(m: OpenMode)
    requires m.bits & 0xF0 == 0
    ensures m == Or(Or(Or(if Has(m, Read) then Read else None,
                             if Has(m, Write) then Write else None),
                          if Has(m, Append) then Append else None),
                    if Has(m, Binary) then Binary else None)
  {
  }

  /** The modes `File` accepts: exactly one of Read, Write and Append,
      optionally Binary, and no other bit. */
  predicate ValidMode(m: OpenMode) {
    && m.bits & 0xF0 == 0
    && (if Has(m, Read) then 1 else 0) + (if Has(m, Write) then 1 else 0) + (if Has(m, Append) then 1 else 0) == 1
  }

  /** The valid modes are exactly the six combinations of one access flag
      with or without Binary. */
  lemma ValidModes(m: OpenMode)
    ensures ValidMode(m) <==> m in {Read, Write, Append, Or(Read, Binary), Or(Write, Binary), Or(Append, Binary)}
  {
  }

  /** The mode checks the library's tests expect: `None` and `Read | Write`
      are rejected; `Read`, `Write`, `Append`, `Write | Binary` and
      `Read | Binary` are accepted. */
  lemma ModeCases()
    ensures !ValidMode(None) && !ValidMode(Or(Read, Write))
    ensures ValidMode(Read) && ValidMode(Write) && ValidMode(Append)
    ensures ValidMode(Or(Write, Binary)) && ValidMode(Or(Read, Binary))
  {
  }
}
