/** Bytes, C strings, the outcome of a C call, and the first-fit search. */
module Base {

  type Byte = x: int | 0 <= x < 256

  /** A byte that can occur inside a C string. */
  type Char = c: Byte | c != 0 witness 1

  /** The contents of a C string, without its terminator. A NULL path is modelled
      by the empty string: the code rejects both in the same place. */
  type CString = seq<Char>

  const MAX_FILE_NAME := 40
  const ENTRY_SIZE := 44
  const ROOT_DIR_INUM := 0
  const SIZE_T := 0x1_0000_0000_0000_0000
  const UINT_RANGE := 0x1_0000_0000
  const INT_MAX := 0x7fff_ffff

  /** No object in memory is larger. */
  const PTRDIFF_MAX := 0x7fff_ffff_ffff_ffff

  /** Abort: an ALWAYS_ASSERT fails, or a copy would leave fs_data or the caller's buffer. */
  datatype Outcome<+T> = Abort | Ok(value: T) {
    predicate IsFailure() {
      Abort?
    }

    function PropagateFailure<U>(): Outcome<U>
      requires Abort?
    {
      Abort
    }

    function Extract(): T
      requires Ok?
    {
      value
    }
  }

  /** The size_t subtraction a - b. */
  function SubSize(a: nat, b: nat): nat
    requires a < SIZE_T && b < SIZE_T
  {
    if a >= b then a - b else SIZE_T + a - b
  }

  /** 64 bits wide. */
  lemma SubSizeWraps(a: nat, b: nat)
    requires a < 0x1_0000_0000_0000_0000 && b < 0x1_0000_0000_0000_0000
    ensures SubSize(a, b) < 0x1_0000_0000_0000_0000
    ensures (SubSize(a, b) + b) % 0x1_0000_0000_0000_0000 == a
  {
  }

  function Min(a: int, b: int): int {
    if a <= b then a else b
  }

  /** The first index at or after i whose element satisfies p, or -1. */
  function First<T>(xs: seq<T>, p: T -> bool, i: nat): (r: int)
    requires i <= |xs|
    ensures r == -1 || i <= r < |xs|
    ensures r == -1 ==> forall j :: i <= j < |xs| ==> !p(xs[j])
    ensures r >= 0 ==> p(xs[r]) && forall j :: i <= j < r ==> !p(xs[j])
    decreases |xs| - i
  {
    if i == |xs| then -1 else if p(xs[i]) then i else First(xs, p, i + 1)
  }

  lemma TailOfSum<T>(a: seq<T>, b: seq<T>)
    requires a != []
    ensures (a + b)[0] == a[0] && (a + b)[1..] == a[1..] + b && [a[0]] + (a[1..] + b) == a + b
  {
  }

  lemma HeadOfSecond<T>(a: seq<T>, b: seq<T>)
    requires b != []
    ensures a + [b[0]] + b[1..] == a + b
  {
  }

  /** The string stored in a char array: the bytes before the first NUL. */
  function CStr(b: seq<Byte>): (r: CString)
    ensures |r| <= |b| && forall k :: 0 <= k < |r| ==> b[k] == r[k]
    ensures |r| < |b| ==> b[|r|] == 0
  {
    if |b| == 0 || b[0] == 0 then [] else [b[0]] + CStr(b[1..])
  }
}
