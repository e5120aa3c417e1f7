/** The mood state machine on the logical clock. */
module MoodEngine {
  import opened Models
  import opened Decisions

  const MOODS := [CALM, SLEEPY, ZOOMY]

  datatype MoodState = MoodState(tick: nat, mood: Mood)

  datatype MoodTransition = MoodTransition(previous: Mood, current: Mood, tick: nat, epoch: nat, derivationKey: string)

  function ChainKey(s: Hashing): string { Tagged(s.sha256(MoodText(s.seed, s.sessionId))) }

  /** The mood the hash picks for an epoch. */
  function MoodOf(s: Hashing, epoch: nat): Mood { MOODS[Draw(s, ChainKey(s), MoodEpoch(epoch)) % 3] }

  function Advanced(config: MoodConfig, s: Hashing, m: MoodState): MoodState {
    var tick := m.tick + 1;
    MoodState(tick, if tick % config.epochLength == 0 then MoodOf(s, tick / config.epochLength) else m.mood)
  }

  function Transition(config: MoodConfig, s: Hashing, m: MoodState): Option<MoodTransition> {
    var next := Advanced(config, s, m);
    var epoch := next.tick / config.epochLength;
    if next.mood == m.mood then None
    else Some(MoodTransition(m.mood, next.mood, next.tick, epoch, Tagged(Derive(s, ChainKey(s), MoodEpoch(epoch)))))
  }

  function Multiplier(config: MoodConfig, mood: Mood, fault: Fault): Weight {
    if mood in config.multipliers && fault in config.multipliers[mood] then config.multipliers[mood][fault] else 1.0
  }

  class MoodEngine {
    const config: MoodConfig
    const session: Hashing
    var tick: nat
    var mood: Mood

    ghost function View(): MoodState
      reads this
    {
      MoodState(tick, mood)
    }

    constructor (config: MoodConfig, session: Hashing)
      ensures View() == MoodState(0, CALM) && this.config == config && this.session == session
    {
      this.config, this.session, tick, mood := config, session, 0, CALM;
    }

    method Advance() returns (transition: Option<MoodTransition>)
      modifies this
      ensures View() == Advanced(config, session, old(View()))
      ensures transition == Transition(config, session, old(View()))
    {
      tick := tick + 1;
      if tick % config.epochLength != 0 {
        return None;
      }
      var epoch := tick / config.epochLength;
      var digest := Derive(session, ChainKey(session), MoodEpoch(epoch));
      var current := MOODS[BigEndian(digest[..8]) % |MOODS|];
      var previous := mood;
      mood := current;
      if current == previous {
        return None;
      }
      return Some(MoodTransition(previous, current, tick, epoch, Tagged(digest)));
    }
  }
}
