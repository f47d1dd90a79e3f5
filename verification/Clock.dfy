/** What the stored rows share: instants in microseconds, and SHA-256 digests in lower-case hex. */
module Clock {
  const SECOND := 1_000_000
  const MINUTE := 60_000_000

  function Min(a: int, b: int): int {
    if a <= b then a else b
  }

  function Max(a: int, b: int): int {
    if a >= b then a else b
  }

  predicate IsSha256(h: string) {
    |h| == 64 && forall i :: 0 <= i < 64 ==> '0' <= h[i] <= '9' || 'a' <= h[i] <= 'f'
  }
}
