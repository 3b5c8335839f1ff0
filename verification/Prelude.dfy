/** Small shared types. */
module Prelude {

  datatype Option<+T> = None | Some(value: T)

  datatype Result<+T, +E> = Ok(value: T) | Err(error: E)

  /** UUIDs. */
  type RouteId = nat
  type NodeId = nat

  type Ip = nat

  datatype Addr = Addr(ip: Ip, port: nat)

  datatype RouteType = Tcp | Udp | Http | Https

  function Max(a: int, b: int): int {
    if a < b then b else a
  }

  function Min(a: int, b: int): int {
    if a < b then a else b
  }

  lemma {:induction false} SubsetSize<T>(a: set<T>, b: set<T>)
    requires a <= b
    ensures |a| <= |b|
    decreases a
  {
    if a != {} {
      var x :| x in a;
      SubsetSize(a - {x}, b - {x});
    }
  }

  /** What each leaves true for the next is true from `i` on. */
  lemma {:induction false} Persists(bs: seq<bool>, i: nat, j: nat)
    requires i <= j < |bs| && bs[i] && forall k | i < k < |bs| :: bs[k - 1] ==> bs[k]
    ensures bs[j]
    decreases j
  {
    if i < j {
      Persists(bs, i, j - 1);
    }
  }
}
