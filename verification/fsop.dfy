/** The operation kinds of a raw filesystem event. The event source reports
    them as a bit set in an unsigned 32-bit word, one bit per kind. */
module FsOp {

  /** A 32-bit unsigned operation word. */
  newtype Op = x: int | 0 <= x < 0x1_0000_0000

  const Create: Op := 1
  const Write: Op := 2
  const Remove: Op := 4
  const Rename: Op := 8
  const Chmod: Op := 16

  /** True iff `bit` (a power of two) is set in `op`. */
  predicate Has(op: Op, bit: Op)
    requires bit > 0
  {
    (op as int / bit as int) % 2 == 1
  }

  /** True iff `op` is exactly one of the five kinds. A word with two or
      more bits set, or none, is not. */
  predicate IsSingle(op: Op) {
    op == Create || op == Write || op == Remove || op == Rename || op == Chmod
  }

  /** The names of the bits set in `op`, in the event source's fixed order,
      joined by '|'. */
  function OpText(op: Op): string {
    var names :=
      (if Has(op, Create) then ["CREATE"] else []) +
      (if Has(op, Remove) then ["REMOVE"] else []) +
      (if Has(op, Write) then ["WRITE"] else []) +
      (if Has(op, Rename) then ["RENAME"] else []) +
      (if Has(op, Chmod) then ["CHMOD"] else []);
    Join(names)
  }

  function Join(parts: seq<string>): string
    decreases |parts|
  {
    if |parts| == 0 then ""
    else if |parts| == 1 then parts[0]
    else parts[0] + "|" + Join(parts[1..])
  }

  /** A combined word such as Create|Write is none of the single kinds, so a
      comparison with `==` against each kind rejects it. */
  lemma CombinedIsNotSingle(a: Op, b: Op)
    requires IsSingle(a) && IsSingle(b) && a != b
    ensures a as int + b as int < 0x1_0000_0000
    ensures !IsSingle((a as int + b as int) as Op)
  {
  }
}
