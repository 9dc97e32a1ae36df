/** Shared vocabulary: optional values, fallible results and the unsigned 32-bit
    integers in which the source counts events, cards and controllers. */
module Common {
  datatype Option<+T> = None | Some(value: T)

  datatype Result<+T, +E> = Ok(value: T) | Err(error: E)

  const MAX_UINT32: int := 0xFFFF_FFFF

  type U32 = x: int | 0 <= x <= 0xFFFF_FFFF

  /** Conversion of an integer to uint32, which keeps the low 32 bits. */
  function ToU32(x: int): U32 {
    x % 0x1_0000_0000
  }

  /** Unsigned addition, wrapping as in Go. */
  function Add32(x: U32, y: U32): (r: U32) {
    if x + y <= MAX_UINT32 then x + y else x + y - 0x1_0000_0000
  }

  /** Unsigned subtraction, wrapping as in Go. */
  function Sub32(x: U32, y: U32): (r: U32) {
    if x >= y then x - y else x - y + 0x1_0000_0000
  }

  function Min(x: int, y: int): int {
    if x <= y then x else y
  }

  function Max(x: int, y: int): int {
    if x >= y then x else y
  }

  /** No element occurs twice. */
  ghost predicate Distinct<T(!new)>(s: seq<T>) {
    forall i, j :: 0 <= i < j < |s| ==> s[i] != s[j]
  }

  ghost function Elements<T>(s: seq<T>): set<T> {
    set x | x in s
  }

  lemma {:induction false} DistinctCount<T(!new)>(s: seq<T>)
    requires Distinct(s)
    ensures |Elements(s)| == |s|
  {
    if s != [] {
      DistinctCount(s[1..]);
      assert s == [s[0]] + s[1..];
      assert Elements(s) == {s[0]} + Elements(s[1..]);
    }
  }

  lemma ElementsStep<T>(s: seq<T>, x: T)
    ensures Elements(s + [x]) == Elements(s) + {x}
  {
  }

  lemma PrefixStep<T>(s: seq<T>, i: nat)
    requires i < |s|
    ensures s[..i + 1] == s[..i] + [s[i]]
  {
  }

  lemma SubsetSize<T>(a: set<T>, b: set<T>)
    requires a <= b
    ensures |a| <= |b|
  {
    assert b == a + (b - a);
  }
}
