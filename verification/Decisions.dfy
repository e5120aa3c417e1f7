/** Occurrence counters, the texts that are hashed into decisions, and the values derived from them. */
module Decisions {
  import opened Models
  import opened SqlNormalizer

  type Byte = b: nat | b < 256 witness 0
  type Digest = d: seq<Byte> | |d| == 32 witness seq(32, _ => 0)

  /** SHA-256 of a text; nothing but its type is used unless a lemma says so. */
  type Hash = string -> Digest

  const POLICY_VERSION :=
    "dogdb-v4:normalize=trim+collapse-whitespace+lowercase-outside-literals+strip-comments"

  /** What a session hashes with: the hash and the two texts that name the session. */
  datatype Hashing = Hashing(sha256: Hash, seed: string, sessionId: string)

  // ----- Texts -----

  function Digit(d: nat): char
    requires d < 16
  {
    "0123456789abcdef"[d]
  }

  function Digits(n: nat): string {
    if n < 10 then [Digit(n)] else Digits(n / 10) + [Digit(n % 10)]
  }

  function Hex(bytes: seq<Byte>): (r: string)
    ensures |r| == 2 * |bytes|
  {
    if bytes == [] then "" else [Digit(bytes[0] / 16), Digit(bytes[0] % 16)] + Hex(bytes[1..])
  }

  function BigEndian(bytes: seq<Byte>): nat {
    if bytes == [] then 0 else 256 * BigEndian(bytes[..|bytes| - 1]) + bytes[|bytes| - 1]
  }

  function Tagged(digest: Digest): (r: string)
    ensures |r| == 71
  {
    "sha256:" + Hex(digest)
  }

  function PhaseText(phase: Phase): string {
    match phase
    case BeforeExecute => "before_execute"
    case OnResult => "on_result"
    case ManualReturn => "manual_return"
    case AutoReturn => "auto_return"
  }

  function FaultText(fault: Fault): string {
    match fault
    case BARK => "BARK" case GUARD_BOWL => "GUARD_BOWL" case IGNORE => "IGNORE" case SLOTH => "SLOTH"
    case NO_DROP => "NO_DROP" case STASH_ERROR => "STASH_ERROR" case STASH => "STASH"
    case FALSE_EMPTY => "FALSE_EMPTY" case TAIL_CHASE => "TAIL_CHASE" case PAGE_HOLE => "PAGE_HOLE"
    case ECHO => "ECHO" case SHUFFLE => "SHUFFLE" case TANGLED_LEASH => "TANGLED_LEASH" case CHEW => "CHEW"
    case WRONG_COUNT => "WRONG_COUNT" case OLD_BONE => "OLD_BONE"
  }

  // ----- Purposes: the closed list of tags under which values are derived -----

  datatype EventName = OfFault(fault: Fault) | LIMIT | DECISION | RETURN | MOOD

  function EventNameText(name: EventName): string {
    match name
    case OfFault(fault) => FaultText(fault)
    case LIMIT => "LIMIT" case DECISION => "DECISION" case RETURN => "RETURN" case MOOD => "MOOD"
  }

  datatype Purpose =
    | Fire(fault: Fault)
    | Rows(fault: Fault)
    | Permutation(index: nat)
    | Profile | Cell | Columns | Count | Delay | Hold | Stale
    | MoodEpoch(epoch: nat)
    | EventId(seqNo: nat, name: EventName)
    | TreasureId(rowIndex: nat)

  /** The word before the first colon of a tag. */
  function Word(p: Purpose): string {
    match p
    case Fire(_) => "fire" case Rows(_) => "rows" case Permutation(_) => "perm" case Profile => "profile"
    case Cell => "cell" case Columns => "columns" case Count => "count" case Delay => "delay" case Hold => "hold"
    case Stale => "stale" case MoodEpoch(_) => "mood" case EventId(_, _) => "event" case TreasureId(_) => "treasure"
  }

  function Rest(p: Purpose): string {
    match p
    case Fire(fault) => FaultText(fault)
    case Rows(fault) => FaultText(fault)
    case Permutation(index) => "SHUFFLE:" + Digits(index)
    case Profile => "CHEW" case Cell => "CHEW" case Columns => "TANGLED_LEASH" case Count => "WRONG_COUNT"
    case Delay => "SLOTH" case Hold => "RETURN" case Stale => "OLD_BONE"
    case MoodEpoch(epoch) => Digits(epoch)
    case EventId(seqNo, name) => Digits(seqNo) + (":" + EventNameText(name))
    case TreasureId(rowIndex) => Digits(rowIndex)
  }

  function TagText(p: Purpose): string { Word(p) + (":" + Rest(p)) }

  // ----- Keys and derived values -----

  function TemplateFingerprint(sha256: Hash, sql: string): string { Tagged(sha256(Normalized(sql))) }

  /** The NUL-joined text behind a decision key; the parameter is the last part, if it takes part at all. */
  function DecisionText(seed: string, sessionId: string, template: string, occurrence: nat, phase: Phase,
                        parameter: Option<string>): string
  {
    POLICY_VERSION + ("\0" + (seed + ("\0" + (sessionId + ("\0" + (template + ("\0" +
      (Digits(occurrence) + ("\0" + (PhaseText(phase) + match parameter case None => "" case Some(p) => "\0" + p))))))))))
  }

  function Decide(s: Hashing, includeParams: bool, template: string, parameter: string, occurrence: nat, phase: Phase)
    : Decision
  {
    var text := DecisionText(s.seed, s.sessionId, template, occurrence, phase,
                             if includeParams then Some(parameter) else None);
    Decision(Context(template, parameter, occurrence, Tagged(s.sha256(text))), phase)
  }

  function MoodText(seed: string, sessionId: string): string {
    POLICY_VERSION + ("\0" + (seed + ("\0" + (sessionId + ("\0" + "mood")))))
  }

  function DeriveText(key: string, p: Purpose): string { key + (":" + TagText(p)) }

  function Derive(s: Hashing, key: string, p: Purpose): Digest { s.sha256(DeriveText(key, p)) }

  /** The first eight bytes, big-endian: a number below 2^64. */
  function Draw(s: Hashing, key: string, p: Purpose): nat { BigEndian(Derive(s, key, p)[..8]) }

  function DeterministicId(s: Hashing, key: string, p: Purpose): (id: string)
    ensures |id| == 32
  {
    Hex(Derive(s, key, p))[..32]
  }

  lemma {:induction false} EightBytes(bytes: seq<Byte>)
    requires |bytes| == 8
    ensures BigEndian(bytes) < 0x1_0000_0000_0000_0000
  {
    ByteBound(bytes, 1, 0x100);
    ByteBound(bytes, 2, 0x1_0000);
    ByteBound(bytes, 3, 0x100_0000);
    ByteBound(bytes, 4, 0x1_0000_0000);
    ByteBound(bytes, 5, 0x100_0000_0000);
    ByteBound(bytes, 6, 0x1_0000_0000_0000);
    ByteBound(bytes, 7, 0x100_0000_0000_0000);
    ByteBound(bytes, 8, 0x1_0000_0000_0000_0000);
    assert bytes[..8] == bytes;
  }

  lemma {:induction false} ByteBound(bytes: seq<Byte>, n: nat, bound: nat)
    requires 0 < n <= |bytes| && bound % 256 == 0
    requires BigEndian(bytes[..n - 1]) < bound / 256
    ensures BigEndian(bytes[..n]) < bound
  {
    assert bytes[..n][..n - 1] == bytes[..n - 1];
  }

  lemma DrawBound(s: Hashing, key: string, p: Purpose)
    ensures Draw(s, key, p) < 0x1_0000_0000_0000_0000
  {
    EightBytes(Derive(s, key, p)[..8]);
  }

  // ----- Occurrence counters -----

  function CountOf(occurrences: map<string, nat>, template: string): nat {
    if template in occurrences then occurrences[template] else 0
  }

  function Begun(occurrences: map<string, nat>, template: string): map<string, nat> {
    occurrences[template := CountOf(occurrences, template) + 1]
  }

  class DecisionEngine {
    const session: Hashing
    const includeParams: bool
    var occurrences: map<string, nat>

    constructor (session: Hashing, includeParams: bool)
      ensures this.session == session && this.includeParams == includeParams && occurrences == map[]
    {
      this.session, this.includeParams, occurrences := session, includeParams, map[];
    }

    method Begin(template: string) returns (occurrence: nat)
      modifies this`occurrences
      ensures occurrences == Begun(old(occurrences), template)
      ensures occurrence == CountOf(occurrences, template)
    {
      occurrence := CountOf(occurrences, template) + 1;
      occurrences := occurrences[template := occurrence];
    }
  }
}
