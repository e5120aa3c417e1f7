/** What the log of a whole run says: it determines the house and the mood, and its ids come from distinct texts. */
module LogTheorems {
  import opened Models
  import opened Decisions
  import opened Faults
  import opened Session
  import opened Invariants
  import opened StepInvariants
  import H = House
  import M = MoodEngine
  import D = DomainSeparation
  import G = EventGrammar
  import EventLog

  /** After every run, rebuilding the house from the log gives the live house: the same treasures,
      in the same order, under the event ids they were logged with. */
  lemma HouseIsTheProjection(cfg: Config, force: bool, ops: seq<Operation>)
    ensures var s := After(cfg, force, ops);
            var rebuilt := H.Projection(s.log);
            && |rebuilt| == |s.house.treasures|
            && forall i | 0 <= i < |rebuilt| ::
                 var t := s.house.treasures[i];
                 rebuilt[i] == H.ProjectedTreasure(t.treasureId, Some(t.context.template), t.rowIndex, t.eventId)
  {
    Reachable(cfg, force, ops);
    ProjectedPointwise(After(cfg, force, ops).house.treasures);
  }

  lemma {:induction false} ProjectedPointwise(ts: seq<Treasure>)
    ensures |Projected(ts)| == |ts|
    ensures forall i | 0 <= i < |ts| :: Projected(ts)[i] ==
              H.ProjectedTreasure(ts[i].treasureId, Some(ts[i].context.template), ts[i].rowIndex, ts[i].eventId)
  {
    if ts != [] {
      ProjectedPointwise(ts[1..]);
    }
  }

  // ----- Moods -----

  predicate IsStatement(op: Operation) { op.Execute? || op.ExecuteMany? }

  function Statements(ops: seq<Operation>): nat {
    if ops == [] then 0 else Statements(ops[..|ops| - 1]) + if IsStatement(ops[|ops| - 1]) then 1 else 0
  }

  lemma StepTick(cfg: Config, force: bool, s: State, op: Operation)
    requires Inv(cfg, s)
    ensures Step(cfg, force, s, op).0.tick == s.tick + if cfg.Clocked() && IsStatement(op) then 1 else 0
  {
    hide Core, Timed, CacheOk, MoodOk, BeginOperation, GiveBack, CancelAndLog, Intervene;
    match op {
      case Execute(_, _, _, _) =>
        BeginKeeps(cfg, s);
        var s0 := BeginOperation(cfg, s);
        if PassthroughReason(op.params, op.cls) == None {
          var call := CallFor(cfg, s0, op);
          CacheOkFrame(cfg, s, s0);
          BegunCache(cfg, s0, call);
          BegunFrame(cfg, s0, call);
          InterveneKeeps(cfg, force, Begin(s0, call), call, op.cls, op.reply);
        }
      case ExecuteMany(_) => BeginKeeps(cfg, s);
      case ReturnTreasure(id) => ReturnTreasureKeeps(cfg, s, id);
      case ReturnAll => ReturnAllKeeps(cfg, force, s);
    }
  }

  /** The clock counts the statements of the run, passed-through ones included. */
  lemma {:induction false} ClockCounts(cfg: Config, force: bool, ops: seq<Operation>)
    ensures After(cfg, force, ops).tick == if cfg.Clocked() then Statements(ops) else 0
  {
    if ops != [] {
      var front := ops[..|ops| - 1];
      ClockCounts(cfg, force, front);
      Reachable(cfg, force, front);
      hide Inv, Step;
      StepTick(cfg, force, After(cfg, force, front), ops[|ops| - 1]);
    }
  }

  /** The mood after t statements has a closed form, and folding the logged changes from CALM gives it back. */
  lemma MoodIsReplayed(cfg: Config, force: bool, ops: seq<Operation>)
    requires cfg.mood.Some?
    ensures var s, t, l := After(cfg, force, ops), Statements(ops), cfg.mood.value.epochLength;
            && s.mood.tick == s.tick == t
            && s.mood.mood == (if t < l then CALM else M.MoodOf(cfg.session, t / l))
            && MoodFold(s.log) == s.mood.mood
  {
    Reachable(cfg, force, ops);
    ClockCounts(cfg, force, ops);
  }

  predicate IsChange(e: Event) { e.eventType == MoodChanged }

  /** The logged changes chain from CALM, always to another mood, at strictly later multiples of the epoch. */
  lemma {:induction false} MoodChangesChain(cfg: Config, log: seq<Event>)
    requires MoodChain(cfg, log)
    ensures forall i | 0 <= i < |log| && IsChange(log[i]) ::
      && cfg.mood.Some? && log[i].details.MoodDetails?
      && log[i].details.from == MoodFold(log[..i]) && log[i].details.to != log[i].details.from
      && log[i].details.tick % cfg.mood.value.epochLength == 0 && log[i].details.tick <= LastMoodTick(log)
    ensures forall i, j | 0 <= i < j < |log| && IsChange(log[i]) && IsChange(log[j]) ::
      log[i].details.MoodDetails? && log[j].details.MoodDetails? && log[i].details.tick < log[j].details.tick
  {
    hide MoodFold;
    if log != [] {
      var front, last := log[..|log| - 1], |log| - 1;
      MoodChangesChain(cfg, front);
      assert forall i | 0 <= i < last :: log[i] == front[i] && log[..i] == front[..i];
      assert LastMoodTick(front) <= LastMoodTick(log);
      forall i, j | 0 <= i < j < |log| && IsChange(log[i]) && IsChange(log[j])
        ensures log[i].details.MoodDetails? && log[j].details.MoodDetails? && log[i].details.tick < log[j].details.tick
      {
        if j < last {
          assert IsChange(front[i]) && IsChange(front[j]);
        }
      }
    }
  }

  /** The mood changes logged in a run, in particular, and none of them later than the clock. */
  lemma MoodLogOfRun(cfg: Config, force: bool, ops: seq<Operation>)
    ensures var log := After(cfg, force, ops).log;
            && (forall i | 0 <= i < |log| && IsChange(log[i]) ::
                  && cfg.mood.Some? && log[i].details.MoodDetails?
                  && log[i].details.from == MoodFold(log[..i]) && log[i].details.to != log[i].details.from
                  && log[i].details.tick % cfg.mood.value.epochLength == 0
                  && log[i].details.tick <= After(cfg, force, ops).tick)
            && (forall i, j | 0 <= i < j < |log| && IsChange(log[i]) && IsChange(log[j]) ::
                  log[i].details.MoodDetails? && log[j].details.MoodDetails? && log[i].details.tick < log[j].details.tick)
  {
    Reachable(cfg, force, ops);
    hide After, MoodFold, IsChange, LogOk, MoodChain;
    MoodChangesChain(cfg, After(cfg, force, ops).log);
  }

  /** The events of a run are numbered from 1 without gaps. */
  lemma LogOfRunIsContiguous(cfg: Config, force: bool, ops: seq<Operation>)
    ensures EventLog.Contiguous(After(cfg, force, ops).log)
  {
    Reachable(cfg, force, ops);
    hide After;
    G.LogIsContiguous(cfg, After(cfg, force, ops).log);
  }

  // ----- Event ids -----

  /** The text the id of an event at its place in the log is hashed from, for some key and name. */
  ghost predicate IdText(cfg: Config, e: Event, text: string) {
    exists key: string, name: EventName :: NamedIdText(cfg, e, text, key, name)
  }

  ghost predicate NamedIdText(cfg: Config, e: Event, text: string, key: string, name: EventName) {
    && |key| == 71 && text == DeriveText(key, EventId(e.seqNo, name))
    && e.eventId == Hex(cfg.session.sha256(text))[..32]
  }

  ghost predicate HasIdText(cfg: Config, e: Event) { exists text :: IdText(cfg, e, text) }

  lemma DerivedHasText(cfg: Config, e: Event)
    requires IdDerived(cfg, e)
    ensures HasIdText(cfg, e)
  {
    hide Hex, DeriveText;
    var key: string, name: EventName :|
      |key| == 71 && e.eventId == DeterministicId(cfg.session, key, EventId(e.seqNo, name));
    assert NamedIdText(cfg, e, DeriveText(key, EventId(e.seqNo, name)), key, name);
    assert IdText(cfg, e, DeriveText(key, EventId(e.seqNo, name)));
  }

  lemma {:induction false} LogIdTexts(cfg: Config, log: seq<Event>)
    requires LogOk(cfg, log)
    ensures forall i | 0 <= i < |log| :: HasIdText(cfg, log[i])
  {
    hide IdDerived, HasIdText;
    if log != [] {
      var front := log[..|log| - 1];
      LogIdTexts(cfg, front);
      DerivedHasText(cfg, log[|log| - 1]);
      forall i | 0 <= i < |log| ensures HasIdText(cfg, log[i]) {
        if i < |front| {
          assert log[i] == front[i];
        }
      }
    }
  }

  lemma IdTextsDiffer(cfg: Config, e: Event, e': Event, a: string, b: string)
    requires e.seqNo != e'.seqNo && IdText(cfg, e, a) && IdText(cfg, e', b)
    ensures a != b
  {
    hide Hex, DeriveText;
    var k: string, n: EventName :| NamedIdText(cfg, e, a, k, n);
    var k': string, n': EventName :| NamedIdText(cfg, e', b, k', n');
    if a == b {
      D.DeriveTextsDiffer(k, EventId(e.seqNo, n), k', EventId(e'.seqNo, n'));
      assert false;
    }
  }

  /** Every event of a run has an id text, and no two events of the run can have the same one. */
  lemma EventIdTextsDiffer(cfg: Config, force: bool, ops: seq<Operation>)
    ensures var log := After(cfg, force, ops).log;
            && (forall i | 0 <= i < |log| :: HasIdText(cfg, log[i]))
            && (forall i, j, a, b | 0 <= i < j < |log| && IdText(cfg, log[i], a) && IdText(cfg, log[j], b) :: a != b)
  {
    Reachable(cfg, force, ops);
    LogTextsDiffer(cfg, After(cfg, force, ops).log);
  }

  lemma LogTextsDiffer(cfg: Config, log: seq<Event>)
    requires LogOk(cfg, log)
    ensures forall i | 0 <= i < |log| :: HasIdText(cfg, log[i])
    ensures forall i, j, a, b | 0 <= i < j < |log| && IdText(cfg, log[i], a) && IdText(cfg, log[j], b) :: a != b
  {
    LogIdTexts(cfg, log);
    G.LogIsContiguous(cfg, log);
    hide HasIdText, IdText, LogOk;
    forall i, j, a, b | 0 <= i < j < |log| && IdText(cfg, log[i], a) && IdText(cfg, log[j], b) ensures a != b {
      IdTextsDiffer(cfg, log[i], log[j], a, b);
    }
  }
}
