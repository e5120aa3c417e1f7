/** How one operation can move treasures and releases, and what a template goes through between two stashes. */
module HouseMoves {
  import opened Models
  import opened Decisions
  import opened Faults
  import opened Session
  import opened Adapters
  import opened StepInvariants
  import H = House
  import AR = AutoReturn
  import SC = StaleCache

  /** The result phase of a statement either leaves the house alone, spends the release of its own template,
      or, if that template has neither a treasure nor a release, puts one treasure of it in the house. */
  ghost predicate Moves(cfg: Config, h: H.House, h': H.House, template: string) {
    || h' == h
    || h' == H.Consumed(h, template)
    || (h'.released == h.released - {template} && Admission(cfg, h, h'.treasures, template))
  }

  ghost predicate Admission(cfg: Config, h: H.House, ts: seq<Treasure>, template: string) {
    && |ts| == |h.treasures| + 1 && ts[..|h.treasures|] == h.treasures
    && ts[|h.treasures|].context.template == template
    && template !in h.released && H.ActiveFor(h.treasures, template) == []
    && cfg.policy.Probability(STASH) > 0.0
  }

  lemma StashMoves(cfg: Config, s: State, d: Decision, result: LogicalResult)
    requires result.rows != [] && d.context.template !in s.house.released
    requires H.ActiveFor(s.house.treasures, d.context.template) == [] && cfg.policy.Probability(STASH) > 0.0
    ensures var h' := Stash(cfg, s, d, result).0.house;
            h' == s.house || (h'.released == s.house.released && Admission(cfg, s.house, h'.treasures, d.context.template))
  {
    hide NextEventId, AR.Planned, AR.HoldFor, DeterministicId, Index, H.Vacant, H.ActiveFor;
  }

  lemma FiringHasProbability(cfg: Config, mood: Mood, key: string, fault: Fault)
    requires Fires(cfg, mood, key, fault)
    ensures cfg.policy.Probability(fault) > 0.0
  {
    hide Draw;
  }

  lemma TreatedMoves(cfg: Config, s: State, d: Decision, cls: Classification, result: LogicalResult)
    requires H.ActiveFor(s.house.treasures, d.context.template) == []
    ensures Moves(cfg, s.house, Treated(cfg, s, d, cls, result).0.house, d.context.template)
  {
    hide ChewFor, History, Candidates, Fires, NextEventId, Inject, Stash, H.ActiveFor, Admission;
    var released, s1 := d.context.template in s.house.released, s.(house := H.Consumed(s.house, d.context.template));
    var chew, history := ChewFor(cfg, d, result), History(cfg, s, d);
    var candidates := Candidates(cfg, released, cls, result, chew.Some?, history != []);
    match Select(cfg, s.mood.mood, d.context.key, ON_RESULT_PRIORITY, candidates) {
      case None =>
      case Some(fault) =>
        CandidateApplies(cfg, released, cls, result, chew, history, fault);
        if fault == STASH || fault == STASH_ERROR {
          FiringHasProbability(cfg, s.mood.mood, d.context.key, fault);
          assert cfg.policy.Probability(fault) == cfg.policy.Probability(STASH);
          StashMoves(cfg, s1, d, result);
          assert s1.house == s.house;
        }
    }
  }

  lemma OnResultMoves(cfg: Config, s: State, d: Decision, cls: Classification, result: LogicalResult)
    ensures Moves(cfg, s.house, Faults.OnResult(cfg, s, d, cls, result).0.house, d.context.template)
  {
    hide Drops, Treated, NextEventId, H.ActiveFor, Admission;
    if H.ActiveFor(s.house.treasures, d.context.template) == [] {
      TreatedMoves(cfg, s, d, cls, result);
    }
  }

  lemma InterveneMoves(cfg: Config, force: bool, s: State, call: Call, cls: Classification, reply: Reply)
    ensures Moves(cfg, s.house, Intervene(cfg, force, s, call, cls, reply).0.house, call.template)
  {
    hide Faults.OnResult, BeforeFault, NextEventId, EvaluatesBefore, Intervenes, Fetch, Draw, KeyFor, SC.Added, Moves;
    DecisionKeyLength(cfg, call, OnResult);
    hide DecisionFor;
    Unmoved(cfg, s.house, call.template);
    var (s1, before) := BeforePhase(cfg, force, s, call, cls);
    var s2 := DeferredDebug(cfg, force, s1, call, cls, before);
    assert s1.house == s.house && s2.house == s.house;
    if Fetch(reply, RowCap(cfg, cls)).Fetched? {
      OnResultMoves(cfg, s2, DecisionFor(cfg, call, OnResult), cls, Fetch(reply, RowCap(cfg, cls)).result);
    }
  }

  lemma Unmoved(cfg: Config, h: H.House, template: string)
    ensures Moves(cfg, h, h, template)
  {
  }
}
