/** The numbers a session draws, read off the hashed texts themselves. */
module RawDraws {
  import opened Models
  import opened Decisions
  import opened Draws
  import opened Transforms
  import opened Faults
  import opened Session
  import AR = AutoReturn
  import M = MoodEngine
  import D = DomainSeparation

  // ----- Numbers and digits -----

  /** The number a decimal numeral stands for. */
  function Numeral(text: string): int {
    if text == "" then 0 else 10 * Numeral(text[..|text| - 1]) + (text[|text| - 1] as int - '0' as int)
  }

  lemma {:induction false} DigitsAreDecimal(n: nat)
    ensures Numeral(Digits(n)) == n
    ensures |Digits(n)| == 1 || Digits(n)[0] != '0'
  {
    if n >= 10 {
      DigitsAreDecimal(n / 10);
      var front, last := Digits(n / 10), Digit(n % 10);
      DigitChar(n % 10);
      NumeralGrows(front, last);
      assert Digits(n)[0] == front[0];
      if |front| == 1 {
        SmallDigits(n / 10);
      }
    } else {
      DigitChar(n);
      NumeralGrows("", Digit(n));
      assert "" + [Digit(n)] == [Digit(n)];
    }
  }

  lemma NumeralGrows(front: string, last: char)
    ensures Numeral(front + [last]) == 10 * Numeral(front) + (last as int - '0' as int)
  {
    assert (front + [last])[..|front|] == front;
  }

  lemma DigitChar(d: nat)
    requires d < 10
    ensures Digit(d) as int == '0' as int + d
  {
  }

  lemma SmallDigits(n: nat)
    requires |Digits(n)| == 1
    ensures n < 10 && Digits(n)[0] as int == '0' as int + n
  {
    if n < 10 {
      DigitChar(n);
    } else {
      D.DigitsAreDigits(n / 10);
    }
  }

  /** Two hexadecimal digits for each byte. */
  lemma {:induction false} HexIsHexadecimal(bytes: seq<Byte>, i: nat)
    requires i < |bytes|
    ensures Hex(bytes)[2 * i] == "0123456789abcdef"[bytes[i] / 16] && Hex(bytes)[2 * i + 1] == "0123456789abcdef"[bytes[i] % 16]
  {
    if i > 0 {
      HexIsHexadecimal(bytes[1..], i - 1);
      assert Hex(bytes)[2..] == Hex(bytes[1..]);
      assert Hex(bytes)[2 * i] == Hex(bytes[1..])[2 * (i - 1)] && Hex(bytes)[2 * i + 1] == Hex(bytes[1..])[2 * (i - 1) + 1];
    }
  }

  /** Eight bytes as one number, the first byte the most significant. */
  function Eight(b: seq<nat>): nat
    requires |b| == 8
  {
    b[0] * 0x100_0000_0000_0000 + b[1] * 0x1_0000_0000_0000 + b[2] * 0x100_0000_0000 + b[3] * 0x1_0000_0000
    + b[4] * 0x100_0000 + b[5] * 0x1_0000 + b[6] * 0x100 + b[7]
  }

  lemma Step(b: seq<Byte>, n: nat)
    requires n < |b|
    ensures BigEndian(b[..n + 1]) == 256 * BigEndian(b[..n]) + b[n]
  {
    assert b[..n + 1][..n] == b[..n];
  }

  lemma EightIs(b: seq<Byte>)
    requires |b| == 8
    ensures BigEndian(b) == Eight(b) < TWO64
  {
    hide BigEndian;
    assert BigEndian(b[..0]) == 0 by {
      NoBytes();
    }
    Step(b, 0);
    Step(b, 1);
    Step(b, 2);
    Step(b, 3);
    Step(b, 4);
    Step(b, 5);
    Step(b, 6);
    Step(b, 7);
    assert b[..8] == b;
  }

  lemma NoBytes()
    ensures BigEndian([]) == 0
  {
  }

  // ----- Texts -----

  /** The number drawn from a text: the first eight bytes of its hash. */
  function Drawn(h: Hash, text: string): nat { Eight(h(text)[..8]) }

  lemma DrawIs(s: Hashing, key: string, p: Purpose, tag: string)
    requires TagText(p) == tag
    ensures Draw(s, key, p) == Drawn(s.sha256, key + (":" + tag)) < TWO64
  {
    EightIs(Derive(s, key, p)[..8]);
  }

  /** A fault's name in the texts. */
  function Name(fault: Fault): string {
    match fault
    case BARK => "BARK" case GUARD_BOWL => "GUARD_BOWL" case IGNORE => "IGNORE" case SLOTH => "SLOTH"
    case NO_DROP => "NO_DROP" case STASH_ERROR => "STASH_ERROR" case STASH => "STASH"
    case FALSE_EMPTY => "FALSE_EMPTY" case TAIL_CHASE => "TAIL_CHASE" case PAGE_HOLE => "PAGE_HOLE"
    case ECHO => "ECHO" case SHUFFLE => "SHUFFLE" case TANGLED_LEASH => "TANGLED_LEASH" case CHEW => "CHEW"
    case WRONG_COUNT => "WRONG_COUNT" case OLD_BONE => "OLD_BONE"
  }

  lemma Names(fault: Fault)
    ensures FaultText(fault) == Name(fault)
  {
  }

  lemma Spelled(word: string, tag: string, rest: string)
    requires tag == word + ":"
    ensures word + (":" + rest) == tag + rest
  {
  }

  lemma EventSpelled(n: nat, name: string)
    ensures "event" + (":" + (Digits(n) + (":" + name))) == "event:" + Digits(n) + (":" + name)
  {
    hide Digits;
  }

  /** The closed list of tags, spelled out. */
  lemma Tags(fault: Fault, n: nat)
    ensures TagText(Fire(fault)) == "fire:" + Name(fault)
    ensures TagText(Rows(fault)) == "rows:" + Name(fault)
    ensures TagText(Permutation(n)) == "perm:SHUFFLE:" + Digits(n)
    ensures TagText(MoodEpoch(n)) == "mood:" + Digits(n)
    ensures TagText(TreasureId(n)) == "treasure:" + Digits(n)
  {
    hide Digits, FaultText, Name;
    Names(fault);
    Spelled("fire", "fire:", FaultText(fault));
    Spelled("rows", "rows:", FaultText(fault));
    Spelled("mood", "mood:", Digits(n));
    Spelled("treasure", "treasure:", Digits(n));
    PermutationTag(n);
  }

  lemma PermutationTag(n: nat)
    ensures TagText(Permutation(n)) == "perm:SHUFFLE:" + Digits(n)
  {
    hide Digits;
    assert "perm" + (":" + ("SHUFFLE:" + Digits(n))) == "perm:SHUFFLE:" + Digits(n);
  }

  lemma FixedTags()
    ensures TagText(Profile) == "profile:CHEW" && TagText(Purpose.Cell) == "cell:CHEW"
    ensures TagText(Columns) == "columns:TANGLED_LEASH" && TagText(Count) == "count:WRONG_COUNT"
    ensures TagText(Delay) == "delay:SLOTH" && TagText(Purpose.Hold) == "hold:RETURN" && TagText(Stale) == "stale:OLD_BONE"
  {
    CellTags();
    FixedTag("delay", "SLOTH", "delay:SLOTH");
    FixedTag("hold", "RETURN", "hold:RETURN");
    FixedTag("stale", "OLD_BONE", "stale:OLD_BONE");
  }

  lemma CellTags()
    ensures TagText(Profile) == "profile:CHEW" && TagText(Purpose.Cell) == "cell:CHEW"
    ensures TagText(Columns) == "columns:TANGLED_LEASH" && TagText(Count) == "count:WRONG_COUNT"
  {
    FixedTag("profile", "CHEW", "profile:CHEW");
    FixedTag("cell", "CHEW", "cell:CHEW");
    FixedTag("columns", "TANGLED_LEASH", "columns:TANGLED_LEASH");
    FixedTag("count", "WRONG_COUNT", "count:WRONG_COUNT");
  }

  lemma FixedTag(word: string, rest: string, tag: string)
    requires tag == word + ":" + rest
    ensures word + (":" + rest) == tag
  {
  }

  /** The last word of an event's tag. */
  function EventWord(name: EventName): string {
    match name
    case OfFault(fault) => Name(fault)
    case LIMIT => "LIMIT" case DECISION => "DECISION" case RETURN => "RETURN" case MOOD => "MOOD"
  }

  lemma EventTag(n: nat, name: EventName)
    ensures TagText(EventId(n, name)) == "event:" + Digits(n) + (":" + EventWord(name))
  {
    hide Digits, FaultText, Name;
    if name.OfFault? {
      Names(name.fault);
    }
    assert EventNameText(name) == EventWord(name);
    hide EventNameText, EventWord;
    EventSpelled(n, EventWord(name));
  }

  /** The key of a decision: the hash of policy version, seed, session, template, occurrence, phase and, if included, the
      parameter, joined by NUL. */
  function Key(cfg: Config, template: string, occurrence: nat, phase: string, parameter: string): string {
    "sha256:" + Hex(cfg.session.sha256(
      "dogdb-v4:normalize=trim+collapse-whitespace+lowercase-outside-literals+strip-comments" + "\0" + cfg.session.seed
      + "\0" + cfg.session.sessionId + "\0" + template + "\0" + Digits(occurrence) + "\0" + phase
      + if cfg.includeParams then "\0" + parameter else ""))
  }

  lemma KeysAre(cfg: Config, call: Call)
    ensures DecisionFor(cfg, call, BeforeExecute).context ==
            Context(call.template, call.parameter, call.occurrence,
                    Key(cfg, call.template, call.occurrence, "before_execute", call.parameter))
    ensures DecisionFor(cfg, call, OnResult).context ==
            Context(call.template, call.parameter, call.occurrence,
                    Key(cfg, call.template, call.occurrence, "on_result", call.parameter))
    ensures forall phase :: DecisionFor(cfg, call, phase).phase == phase
  {
    hide Digits, Hex;
    SameText(cfg, call, "before_execute");
    SameText(cfg, call, "on_result");
  }

  lemma SameText(cfg: Config, call: Call, phase: string)
    ensures var end := if cfg.includeParams then "\0" + call.parameter else "";
            POLICY_VERSION + ("\0" + (cfg.session.seed + ("\0" + (cfg.session.sessionId + ("\0" + (call.template + ("\0" +
              (Digits(call.occurrence) + ("\0" + (phase + end)))))))))) ==
            "dogdb-v4:normalize=trim+collapse-whitespace+lowercase-outside-literals+strip-comments" + "\0" + cfg.session.seed
            + "\0" + cfg.session.sessionId + "\0" + call.template + "\0" + Digits(call.occurrence) + "\0" + phase + end
  {
    hide Digits;
  }

  // ----- Holds, moods and swaps -----

  /** How long a stashed row is held is drawn from the stashing decision, within the configured range. */
  lemma HoldIs(config: AutoReturnConfig, s: Hashing, key: string)
    ensures AR.HoldFor(config, s, key) ==
            config.minOperations
            + Drawn(s.sha256, key + ":hold:RETURN") % (config.maxOperations - config.minOperations + 1)
  {
    hide TagText, Drawn, BigEndian;
    FixedTags();
    assert key + (":" + "hold:RETURN") == key + ":hold:RETURN";
    DrawIs(s, key, Purpose.Hold, "hold:RETURN");
  }

  /** Each hold of the range has floor or ceiling of its share of the draws behind it. */
  lemma HoldsAreFair(config: AutoReturnConfig, hold: nat)
    requires config.minOperations <= hold <= config.maxOperations
    requires config.maxOperations - config.minOperations < TWO64
    ensures var span := config.maxOperations - config.minOperations + 1;
            TWO64 / span <= |Behind(TWO64, d => d % span, hold - config.minOperations)| <= (TWO64 + span - 1) / span
  {
    DrawsAreFair(config.maxOperations - config.minOperations + 1, hold - config.minOperations);
  }

  /** The text of the session's mood chain. */
  function ChainText(s: Hashing): string {
    "dogdb-v4:normalize=trim+collapse-whitespace+lowercase-outside-literals+strip-comments" + "\0" + s.seed + "\0"
    + s.sessionId + "\0mood"
  }

  lemma ChainIs(s: Hashing)
    ensures MoodText(s.seed, s.sessionId) == ChainText(s)
  {
    assert POLICY_VERSION + ("\0" + (s.seed + ("\0" + (s.sessionId + ("\0" + "mood"))))) == ChainText(s);
  }

  /** The mood of an epoch is drawn from the session's mood chain. */
  lemma MoodIs(s: Hashing, epoch: nat)
    ensures M.MoodOf(s, epoch) ==
            match Drawn(s.sha256, "sha256:" + Hex(s.sha256(ChainText(s))) + ":mood:" + Digits(epoch)) % 3
            case 0 => CALM
            case 1 => SLEEPY
            case _ => ZOOMY
  {
    Tags(STASH, epoch);
    hide TagText, Drawn, Digits, Hex, BigEndian;
    ChainIs(s);
    var key := M.ChainKey(s);
    assert key + (":" + ("mood:" + Digits(epoch))) == key + ":mood:" + Digits(epoch);
    DrawIs(s, key, MoodEpoch(epoch), "mood:" + Digits(epoch));
  }

  /** The i-th swap of a shuffle takes the place that the draw, as a fraction of 2^64, marks among the first i + 1. */
  lemma SwapsAre(cfg: Config, d: Decision, n: nat, i: nat)
    requires i < n
    ensures var draw, swap := Drawn(cfg.session.sha256, d.context.key + ":perm:SHUFFLE:" + Digits(i)),
                              Swaps(ShuffleDraws(cfg, d, n))[i];
            swap * TWO64 <= draw * (i + 1) < (swap + 1) * TWO64
  {
    Tags(SHUFFLE, i);
    hide TagText, Drawn, Digits, Draw;
    var key := d.context.key;
    assert key + (":" + ("perm:SHUFFLE:" + Digits(i))) == key + ":perm:SHUFFLE:" + Digits(i);
    DrawIs(cfg.session, key, Permutation(i), "perm:SHUFFLE:" + Digits(i));
    var draw := Draw(cfg.session, key, Permutation(i));
    assert Swaps(ShuffleDraws(cfg, d, n))[i] == ScaledIndex(draw, i + 1);
    hide Swaps, ShuffleDraws;
    QuotientBounds(draw * (i + 1), TWO64);
  }

  lemma QuotientBounds(a: nat, n: nat)
    requires n > 0
    ensures a / n * n <= a < (a / n + 1) * n
  {
    assert (a / n + 1) * n == a / n * n + n;
  }

  // ----- Mood changes -----

  /** The event of a mood change at a tick, under its place in the log; its id comes from the digest of the epoch's draw. */
  function MoodEvent(s: Hashing, seqNo: nat, from: Mood, to: Mood, tick: nat, epoch: nat): Event {
    var digest := s.sha256("sha256:" + Hex(s.sha256(ChainText(s))) + (":" + ("mood:" + Digits(epoch))));
    Event(seqNo, Hex(s.sha256("sha256:" + Hex(digest) + (":" + ("event:" + Digits(seqNo) + ":MOOD"))))[..32], MoodChanged,
          None, None, None, None, MoodDetails(from, to, tick))
  }

  /** A clocked operation logs a mood change exactly when the mood that the epoch's end draws is another one. */
  lemma MoodChangesAre(cfg: Config, s: State)
    requires cfg.mood.Some?
    ensures var length, tick := cfg.mood.value.epochLength, s.mood.tick + 1;
            var next := if tick % length == 0 then M.MoodOf(cfg.session, tick / length) else s.mood.mood;
            AdvanceMood(cfg, s) ==
            s.(mood := M.MoodState(tick, next),
               log := s.log + if next == s.mood.mood then []
                              else [MoodEvent(cfg.session, |s.log| + 1, s.mood.mood, next, tick, tick / length)])
  {
    hide TagText, Digits, Hex, M.MoodOf, MoodText;
    var epoch := (s.mood.tick + 1) / cfg.mood.value.epochLength;
    Tags(STASH, epoch);
    EventTag(|s.log| + 1, MOOD);
    assert ":" + EventWord(MOOD) == ":MOOD";
    ChainIs(cfg.session);
  }
}
