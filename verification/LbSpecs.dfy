/** The user's part of a LoadBalancer: listeners and health check, with the widths of their fields. */
module LbSpecs {
  import opened Common
  import opened Text
  import Bits

  const TWO64: int := 0x1_0000_0000_0000_0000

  const TWO63: int := 0x8000_0000_0000_0000

  type Int32 = x: int | -0x8000_0000 <= x < 0x8000_0000

  type Uint = x: int | 0 <= x < 0x1_0000_0000_0000_0000

  /** Go's conversion of an int32 to uint: a negative value wraps. */
  function ToUint(x: Int32): Uint {
    if x < 0 then x + TWO64 else x
  }

  /** Go's conversion of a uint to int or int64. */
  function ToInt64(x: Uint): int {
    if x < TWO63 then x else x - TWO64
  }

  /** time.Duration(n) * time.Second, in nanoseconds, with its wrap-around. */
  function Seconds(n: Uint): int {
    ToInt64((ToInt64(n) * 1_000_000_000) % TWO64)
  }

  /** The longest duration in whole seconds that a time.Duration can hold. */
  const MAX_SECONDS: int := 9_223_372_036

  lemma WrapIsModular(n: Uint)
    ensures (ToInt64(n) * 1_000_000_000) % TWO64 == (n * 1_000_000_000) % TWO64
  {
    if n >= TWO63 {
      var a, b := n * 1_000_000_000, ToInt64(n) * 1_000_000_000;
      assert b == a - 1_000_000_000 * TWO64;
      Bits.DivModUnique(b, a / TWO64 - 1_000_000_000, TWO64, a % TWO64);
    }
  }

  /** A duration is exact exactly up to MAX_SECONDS, and positive exactly when the product's low word is. */
  lemma SecondsExactIff(n: Uint)
    ensures Seconds(n) == n * 1_000_000_000 <==> n <= MAX_SECONDS
    ensures Seconds(n) > 0 <==> 0 < (n * 1_000_000_000) % TWO64 < TWO63
    ensures 1 <= n <= MAX_SECONDS ==> Seconds(n) > 0
  {
    WrapIsModular(n);
    if n <= MAX_SECONDS {
      Bits.DivModUnique(n * 1_000_000_000, 0, TWO64, n * 1_000_000_000);
    }
  }

  datatype Listener = Listener(name: string, protocol: string, port: Int32, backendPort: Int32)

  datatype HealthCheck = HealthCheck(port: Uint, successThreshold: Uint, failureThreshold: Uint, periodSeconds: Uint,
                                     timeoutSeconds: Uint)

  datatype LbSpec = LbSpec(namespace: string, name: string, isCluster: bool, listeners: seq<Listener>,
                           healthCheck: Option<HealthCheck>)
  {
    /** A health check is enabled when it is present and its port is not 0. */
    predicate Probing() {
      healthCheck.Some? && healthCheck.value.port != 0
    }

    /** The key under which the prober manager keeps this LoadBalancer's workers. */
    function Uid(): string {
      Key(namespace, '/', name)
    }
  }
}
