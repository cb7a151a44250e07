/** Vocabulary shared by every component: optional values, results and machine-integer limits. */
module Prelude {

  datatype Option<+T> = None | Some(value: T)

  datatype Result<+T> = Ok(value: T) | Err(error: GraphError) {
    predicate IsFailure() {
      Err?
    }

    function PropagateFailure<U>(): Result<U>
      requires Err?
    {
      Err(error)
    }

    function Extract(): T
      requires Ok?
    {
      value
    }
  }

  /** The error kinds the modelled operations can report. */
  datatype GraphError =
    | InvalidFilter
    | Internal
    | CorruptFile
    | EdgeTypeLimit
    | FileLimit
    | RelationshipIdentityMissing

  type byte = b: int | 0 <= b < 256

  const U8_MAX: nat := 0xFF
  const U16_MAX: nat := 0xFFFF
  const U32_MAX: nat := 0xFFFF_FFFF
  const U64_MAX: nat := 0xFFFF_FFFF_FFFF_FFFF

  type u8 = n: nat | n <= U8_MAX
  type u16 = n: nat | n <= U16_MAX
  type u32 = n: nat | n <= U32_MAX

  function SaturatingSub(a: nat, b: nat): nat {
    if a < b then 0 else a - b
  }

  function Max(a: nat, b: nat): nat {
    if a < b then b else a
  }

  function Min(a: nat, b: nat): nat {
    if a < b then a else b
  }

  /** The indexes below a count. */
  function Below(count: nat): (r: set<nat>)
    ensures forall n: nat :: n in r <==> n < count
    ensures |r| == count
  {
    if count == 0 then {} else Below(count - 1) + {count - 1}
  }

  lemma {:induction false} SubsetSize<T>(a: set<T>, b: set<T>)
    requires a <= b
    ensures |a| <= |b|
  {
    assert b == a + (b - a);
  }
}
