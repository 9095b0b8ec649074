/** The data types both sandbox stores share (`domain.rs`), and the specification both refine. */
module Domain {
  import opened Common

  type U64 = n: nat | n < 0x1_0000_0000_0000_0000

  const NANOS_PER_SECOND := 1_000_000_000

  datatype SandboxState = Pending | Running | Failed | Terminating | Expired

  /** Instants are nanoseconds since the epoch. */
  datatype Sandbox = Sandbox(
    id: string,
    tenantId: string,
    runtimeId: Option<string>,
    runtimePodIp: Option<string>,
    profile: string,
    state: SandboxState,
    createdAt: int,
    expiresAt: int,
    metadata: map<string, string>,
    reason: Option<string>)

  datatype CreateCommand = CreateCommand(
    tenantId: string,
    idempotencyKey: Option<string>,
    profile: string,
    ttlSeconds: U64,
    metadata: map<string, string>)

  datatype StoreError = NotFound | Conflict(message: string) | Unavailable(message: string)

  /** `ttl as i64`: values of 2^63 and above wrap to negative numbers. */
  function AsI64(n: U64): (r: int)
    ensures -0x8000_0000_0000_0000 <= r < 0x8000_0000_0000_0000 && (n - r) % 0x1_0000_0000_0000_0000 == 0
  {
    if n < 0x8000_0000_0000_0000 then n else n - 0x1_0000_0000_0000_0000
  }

  /** The sequential specification of an idempotent create: insert if absent, return what is stored. */
  function Ensure<K, V>(stored: map<K, V>, key: K, value: V): (map<K, V>, V) {
    if key in stored then (stored, stored[key]) else (stored[key := value], value)
  }

  /** What a run of either store does to what it holds: keyed creates insert if absent, and entries are erased. */
  datatype Effect<K, V> = EnsureEntry(key: K, value: V) | EraseEntry(key: K)

  function PerformEffect<K, V>(stored: map<K, V>, effect: Effect<K, V>): map<K, V> {
    match effect
    case EnsureEntry(key, value) => Ensure(stored, key, value).0
    case EraseEntry(key) => stored - {key}
  }

  /** The sequential run of a list of effects. */
  function PerformAll<K, V>(stored: map<K, V>, effects: seq<Effect<K, V>>): map<K, V> {
    if effects == [] then stored
    else PerformEffect(PerformAll(stored, effects[..|effects| - 1]), effects[|effects| - 1])
  }

  lemma OneEffect<K, V>(stored: map<K, V>, effect: Effect<K, V>)
    ensures PerformAll(stored, [effect]) == PerformEffect(stored, effect)
  {
    assert [effect][..0] == [];
  }

  lemma {:induction false} PerformAppend<K, V>(stored: map<K, V>, effects: seq<Effect<K, V>>, more: seq<Effect<K, V>>)
    ensures PerformAll(stored, effects + more) == PerformAll(PerformAll(stored, effects), more)
    decreases |more|
  {
    if more == [] {
      assert effects + more == effects;
    } else {
      PerformAppend(stored, effects, more[..|more| - 1]);
      assert (effects + more)[..|effects + more| - 1] == effects + more[..|more| - 1];
    }
  }
}
