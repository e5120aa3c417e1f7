/** What the engine leaves alone: passed-through statements, statements outside its scope, and their logs. */
module PlainAnswers {
  import opened Models
  import opened Decisions
  import opened Adapters
  import opened Faults
  import opened Session
  import opened StaleReads
  import opened Deliveries
  import C = StashCycle

  /** The backend's answer as the client knows it without the engine. */
  predicate AsAnswered(reply: Reply, answer: Delivery) {
    match reply
    case Fails => answer == Raised(BackendFailure)
    case NoRows(affected) => answer == Delivered(LogicalResult([], [], affected, None))
    case Answers(columns, types, rows) => answer == Delivered(LogicalResult(columns, rows, |rows|, Some(types)))
  }

  /** Named parameters, unknown SQL, transaction control, or parameters outside the fingerprint domain. */
  predicate LeftAlone(op: Operation)
    requires op.Execute?
  {
    op.params.Named? || op.cls.kind == UNKNOWN || op.cls.isTransaction || !op.params.inDomain
  }

  /** All other statements take part. */
  lemma TakingPartIs(op: Operation)
    ensures TakesPart(op) <==> op.Execute? && !LeftAlone(op)
  {
  }

  /** Transaction control gets through in every mode, unless a reason with priority holds as well. */
  predicate OnlyTransaction(op: Operation)
    requires op.Execute?
  {
    op.cls.isTransaction && !op.params.Named? && op.cls.kind != UNKNOWN
  }

  /** In every run a statement the engine cannot take part in gets the backend's answer untouched, or is refused exactly in
      error mode for any reason but transaction control; it leaves no trace but the clock's. */
  lemma PassedThrough(cfg: Config, force: bool, ops: seq<Operation>, j: nat)
    requires j < |ops| && ops[j].Execute? && LeftAlone(ops[j])
    ensures var answer := Answer(cfg, force, ops, j);
            && (answer == Raised(PassthroughRefused) <==> cfg.onPassthrough == Error && !OnlyTransaction(ops[j]))
            && (answer != Raised(PassthroughRefused) ==> AsAnswered(ops[j].reply, answer))
    ensures After(cfg, force, ops[..j + 1]) == OpenedAt(cfg, force, ops, j)
  {
    hide After, BeginOperation, Intervene, CallFor;
    C.AfterNext(cfg, force, ops, j);
  }

  /** Statements in bulk always pass through. */
  lemma BulkPassesThrough(cfg: Config, force: bool, ops: seq<Operation>, j: nat)
    requires j < |ops| && ops[j].ExecuteMany?
    ensures Answer(cfg, force, ops, j) ==
            match ops[j].affected
            case None => Raised(BackendFailure)
            case Some(affected) => Delivered(LogicalResult([], [], affected, None))
    ensures After(cfg, force, ops[..j + 1]) == OpenedAt(cfg, force, ops, j)
  {
    hide After, BeginOperation;
    C.AfterNext(cfg, force, ops, j);
  }

  // ----- Scope -----

  /** `only_tables` asks for a listed table; otherwise `exclude_tables` forbids every listed one. */
  predicate InScope(cfg: Config, tables: Option<set<string>>) {
    if cfg.onlyTables.Some? then exists t :: tables.Some? && t in tables.value && t in cfg.onlyTables.value
    else if cfg.excludeTables.Some? then !exists t :: tables.Some? && t in tables.value && t in cfg.excludeTables.value
    else true
  }

  lemma Meet(a: set<string>, b: set<string>)
    ensures a * b != {} <==> exists t :: t in a && t in b
  {
    if t :| t in a && t in b {
      assert t in a * b;
    }
  }

  lemma ScopeIs(cfg: Config, tables: Option<set<string>>)
    ensures ScopeApplies(cfg, tables) <==> InScope(cfg, tables)
  {
    if tables.Some? {
      Meet(tables.value, if cfg.onlyTables.Some? then cfg.onlyTables.value else {});
      Meet(tables.value, if cfg.excludeTables.Some? then cfg.excludeTables.value else {});
    }
  }

  /** In every run a statement outside the scope that takes part gets the backend's answer untouched; it counts as an
      occurrence of its template and changes nothing else. */
  lemma OutOfScope(cfg: Config, force: bool, ops: seq<Operation>, j: nat)
    requires j < |ops| && ops[j].Execute? && !LeftAlone(ops[j]) && !InScope(cfg, ops[j].cls.tables)
    ensures AsAnswered(ops[j].reply, Answer(cfg, force, ops, j))
    ensures var s0 := OpenedAt(cfg, force, ops, j);
            After(cfg, force, ops[..j + 1]) ==
            s0.(occurrences := s0.occurrences[CallAt(cfg, force, ops, j).template := CallAt(cfg, force, ops, j).occurrence])
  {
    hide After, BeginOperation, ScopeApplies, InScope, TemplateFingerprint;
    C.AfterNext(cfg, force, ops, j);
    ScopeIs(cfg, ops[j].cls.tables);
  }
}
