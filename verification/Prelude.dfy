/** Vocabulary shared by every component: results, times and UUID texts. */
module Prelude {

  datatype Option<+T> = None | Some(value: T)

  /** One constructor for each distinct error an operation can return. */
  datatype Error =
    | EmptyDid | EmptyKey | EmptyMemoryId | InvalidUuid | EmptySignature | EmptyParty | SelfVerification
    | AlreadyExists | AgentNotFound | ForeignKey | VerificationNotFound | AlreadySettled
    | MemoryNotFound | WrongBackend | InvalidType | InvalidDimension | InvalidExpiry | WrongKind
    | InvalidSignature | LowReputation | StoreUnavailable

  /** The error half of a Go `(value, error)` pair. */
  datatype Outcome = Ok | Fail(error: Error)

  datatype Result<+T> = Success(value: T) | Failure(error: Error)

  /** Instants and durations are counted in nanoseconds, as Go's `time` package does. */
  type Time = int

  const NANOS_PER_SECOND := 1_000_000_000
  const NANOS_PER_DAY := 86_400 * NANOS_PER_SECOND

  /** Go's zero `time.Time`, the first instant of year 1. */
  const ZERO_TIME: Time := -62_135_596_800 * NANOS_PER_SECOND

  /** A zero time in a record handed in means "now". */
  function OrNow(t: Time, now: Time): Time {
    if t == ZERO_TIME then now else t
  }

  /** Go's `int(d.Seconds())`: whole seconds, truncated toward zero. */
  function WholeSeconds(d: int): (r: int)
    ensures d >= 0 ==> 0 <= r * 1_000_000_000 <= d < (r + 1) * 1_000_000_000
    ensures d < 0 ==> (r - 1) * 1_000_000_000 < d <= r * 1_000_000_000 <= 0
  {
    if d >= 0 then d / NANOS_PER_SECOND else -((-d) / NANOS_PER_SECOND)
  }

  /** Go's `t.Unix()`: whole seconds since the epoch, rounded down. */
  function UnixSeconds(t: Time): (r: int)
    ensures r * 1_000_000_000 <= t < (r + 1) * 1_000_000_000
  {
    t / NANOS_PER_SECOND
  }

  predicate IsHexDigit(c: char) {
    '0' <= c <= '9' || 'a' <= c <= 'f'
  }

  /** The text of a UUID: hexadecimal digits in groups of 8, 4, 4, 4 and 12. */
  predicate IsUuidText(s: string) {
    |s| == 36 && forall i | 0 <= i < 36 ::
      if i == 8 || i == 13 || i == 18 || i == 23 then s[i] == '-' else IsHexDigit(s[i])
  }

  const NIL_UUID: string := "00000000-0000-0000-0000-000000000000"

  type Uuid = s: string | IsUuidText(s) witness NIL_UUID

  function HexDigit(n: nat): (c: char)
    requires n < 16
    ensures IsHexDigit(c)
  {
    if n < 10 then '0' + n as char else 'a' + (n - 10) as char
  }

  /** A version 4 UUID that ends in three given digits. */
  function UuidEnding(a: nat, b: nat, c: nat): Uuid
    requires a < 16 && b < 16 && c < 16
  {
    "00000000-0000-4000-8000-000000000" + [HexDigit(a), HexDigit(b), HexDigit(c)]
  }

  lemma UuidEndingsDiffer(a: nat, b: nat, c: nat, a': nat, b': nat, c': nat)
    requires a < 16 && b < 16 && c < 16 && a' < 16 && b' < 16 && c' < 16
    requires a != a' || b != b' || c != c'
    ensures UuidEnding(a, b, c) != UuidEnding(a', b', c')
  {
    var x, y := UuidEnding(a, b, c), UuidEnding(a', b', c');
    assert x[33] == HexDigit(a) && x[34] == HexDigit(b) && x[35] == HexDigit(c);
    assert y[33] == HexDigit(a') && y[34] == HexDigit(b') && y[35] == HexDigit(c');
  }

  /** A version 4 UUID whose last three digits spell n. */
  function NumberedUuid(n: nat): Uuid
    requires n < 4096
  {
    UuidEnding(n / 256, n / 16 % 16, n % 16)
  }

  lemma DigitsSpell(n: nat)
    ensures n == 256 * (n / 256) + 16 * (n / 16 % 16) + n % 16
  {
    assert n / 16 / 16 == n / 256;
  }

  lemma NumberedUuidsDiffer(m: nat, n: nat)
    requires m < 4096 && n < 4096 && m != n
    ensures NumberedUuid(m) != NumberedUuid(n)
  {
    DigitsSpell(m);
    DigitsSpell(n);
    UuidEndingsDiffer(m / 256, m / 16 % 16, m % 16, n / 256, n / 16 % 16, n % 16);
  }

  lemma SubsetSize<T>(a: set<T>, b: set<T>)
    requires a <= b
    ensures |a| <= |b|
    ensures |a| == |b| ==> a == b
  {
    assert b == a + (b - a);
  }
}
