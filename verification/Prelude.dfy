// Types shared by every module of the model.
module Prelude {

  type byte = n: nat | n < 0x100
  type u16 = n: nat | n < 0x1_0000
  type u32 = n: nat | n < 0x1_0000_0000
  type u64 = n: nat | n < 0x1_0000_0000_0000_0000

  const U64_LIMIT: nat := 0x1_0000_0000_0000_0000

  datatype Option<+T> = None | Some(value: T) {
    function GetOr(default: T): T { if Some? then value else default }
  }

  datatype Result<+T, +E> = Ok(value: T) | Err(error: E) {
    predicate IsFailure() { Err? }
    function PropagateFailure<U>(): Result<U, E> requires Err? { Err(error) }
    function Extract(): T requires Ok? { value }
  }

  // One captured hit, as both the perf reader and the driver poll loop build it (src/perf.rs:28-34).
  datatype SampleData = SampleData(
    pid: u32,
    tid: u32,
    regs: seq<u64>,
    backtrace: Option<seq<u64>>,
    simd: seq<(u64, u64)>)

  lemma ConcatAssociative<T>(a: seq<T>, b: seq<T>, c: seq<T>)
    ensures (a + b) + c == a + (b + c)
  {}

  lemma SplitsAlike<T>(a: seq<T>, b: seq<T>, c: seq<T>, d: seq<T>)
    requires a + b == c + d && |a| == |c|
    ensures a == c && b == d
  {
    assert a == (a + b)[..|a|] == c;
    assert b == (a + b)[|a|..] == d;
  }

  function Min(a: nat, b: nat): nat { if a < b then a else b }

  // The last `n` elements, or all of them.
  function LastN<T>(s: seq<T>, n: nat): seq<T> { s[|s| - Min(n, |s|)..] }
}
