/** How far an operation has come: every step leads on, and an operation left alone runs to an answer. */
module ApiKeyProgress {
  import opened Prelude
  import opened ApiKeys
  import opened ApiKeyCatalog
  import opened ApiKeyProtocol

  /** The most steps an operation can still take. Only a tenant's operation looks again after a resume. */
  function Rank(phase: Phase): nat {
    match phase
    case Start => 7
    case Redirected => 5
    case Looking(who, _, again) => if again then 2 else if who.Some? then 6 else 4
    case Auditing(who, _, again) => if again then 1 else if who.Some? then 5 else 3
    case Resuming(who, _) => if who.Some? then 4 else 2
    case Repinning(_) => 3
    case Committing(_, _) => 1
    case Done(_) => 0
  }

  ghost predicate Descends(c: Catalog, phase: Phase, d: Catalog, next: Phase) {
    Standing(d) && Rank(next) < Rank(phase) && Placed(d, next) && |c.history| <= |d.history|
  }

  lemma ResumeDescends(world: World, c: Catalog, r: Request, who: Option<Id>, basis: nat, fault: Fault)
    requires Standing(c) && basis < |c.history|
    ensures var q := TryResume(world, c, r, who, basis, fault); Descends(c, Resuming(who, basis), q.0, q.1)
  {
    var q := TryResume(world, c, r, who, basis, fault);
    ResumedDescends(c, who, basis, q.0, q.1);
  }

  lemma ResumedDescends(c: Catalog, who: Option<Id>, basis: nat, d: Catalog, next: Phase)
    requires basis < |c.history| <= |d.history| && Standing(d)
    requires next.Done? || next == Committing(who, basis) || (next == Repinning(who) && who.Some?)
    ensures Descends(c, Resuming(who, basis), d, next)
  {
  }

  lemma CommitDescends(world: World, c: Catalog, r: Request, who: Option<Id>, basis: nat, choice: Choice)
    requires Standing(c) && basis < |c.history|
    ensures var q := TryCommit(world, c, r, who, basis, choice); Descends(c, Committing(who, basis), q.0, q.1)
  {
  }

  lemma AuditDescends(world: World, c: Catalog, r: Request, who: Option<Id>, basis: nat, again: bool)
    requires Standing(c) && basis < |c.history|
    ensures Descends(c, Auditing(who, basis, again), c, Audit(world, c, r, who, basis, again))
  {
  }

  /** History is never shortened, and every step brings its operation closer to an answer. */
  lemma NextDescends(world: World, c: Catalog, r: Request, phase: Phase, choice: Choice)
    requires Standing(c) && Placed(c, phase) && !phase.Done?
    ensures var q := Next(world, c, r, phase, choice); Descends(c, phase, q.0, q.1)
  {
    match phase
    case Resuming(who, basis) => ResumeDescends(world, c, r, who, basis, choice.fault);
    case Committing(who, basis) => CommitDescends(world, c, r, who, basis, choice);
    case Auditing(who, basis, again) => AuditDescends(world, c, r, who, basis, again);
    case _ =>
  }

  /** What happens when nothing else runs: the Catalog and the answer an operation ends with. `resumed` is
      where its resume is interrupted, and `choice.fault` where its commit is. */
  function Alone(world: World, c: Catalog, r: Request, phase: Phase, resumed: Fault, choice: Choice):
    (q: (Catalog, Result<Answer, Failure>))
    requires Standing(c) && Placed(c, phase)
    ensures Standing(q.0)
    decreases Rank(phase)
  {
    if phase.Done? then (c, phase.outcome)
    else
      var drawn := Drawn(phase, resumed, choice);
      var next := Next(world, c, r, phase, drawn);
      NextDescends(world, c, r, phase, drawn);
      Alone(world, next.0, r, next.1, resumed, choice)
  }

  function Drawn(phase: Phase, resumed: Fault, choice: Choice): Choice {
    if phase.Resuming? then choice.(fault := resumed) else choice
  }

  /** Phases from which the operation can still commit. */
  predicate MayCommit(phase: Phase) {
    !phase.Repinning? && !phase.Done? && !((phase.Looking? || phase.Auditing?) && phase.again)
  }

  /** An operation that goes on to commit has not published anything before. */
  lemma CommitsOnlyOnce(world: World, c: Catalog, r: Request, phase: Phase, choice: Choice)
    requires Standing(c) && Placed(c, phase) && !phase.Done?
    ensures var q := Next(world, c, r, phase, choice);
            MayCommit(q.1) ==> MayCommit(phase) && q.0.history == c.history && q.0.staged == c.staged
  {
    match phase
    case Resuming(who, basis) => ResumesBeforeCommit(world, c, r, who, basis, choice.fault);
    case Auditing(who, basis, again) => AuditDescends(world, c, r, who, basis, again);
    case _ =>
  }

  lemma ResumesBeforeCommit(world: World, c: Catalog, r: Request, who: Option<Id>, basis: nat, fault: Fault)
    requires Standing(c) && basis < |c.history|
    ensures var q := TryResume(world, c, r, who, basis, fault);
            MayCommit(q.1) ==> q.0 == Recovered(c) && q.1 == Committing(who, basis) && r.key !in c.staged
  {
  }

  lemma AloneLooks(world: World, c: Catalog, r: Request, who: Option<Id>, basis: nat, again: bool, resumed: Fault, choice: Choice)
    requires Standing(c) && basis < |c.history|
    ensures Alone(world, c, r, Looking(who, basis, again), resumed, choice)
            == Alone(world, c, r, Look(world, c, r, who, basis, again), resumed, choice)
  {
  }

  lemma AloneAudits(world: World, c: Catalog, r: Request, who: Option<Id>, basis: nat, again: bool, resumed: Fault, choice: Choice)
    requires Standing(c) && basis < |c.history|
    ensures Alone(world, c, r, Auditing(who, basis, again), resumed, choice)
            == Alone(world, c, r, Audit(world, c, r, who, basis, again), resumed, choice)
  {
  }

  lemma AloneRepins(world: World, c: Catalog, r: Request, who: Option<Id>, resumed: Fault, choice: Choice)
    requires Standing(c)
    ensures Alone(world, c, r, Repinning(who), resumed, choice) == Alone(world, c, r, Repin(c, r, who), resumed, choice)
  {
  }

  lemma AloneCommits(world: World, c: Catalog, r: Request, who: Option<Id>, basis: nat, resumed: Fault, choice: Choice)
    requires Standing(c) && basis < |c.history|
    ensures var q := TryCommit(world, c, r, who, basis, choice);
            Alone(world, c, r, Committing(who, basis), resumed, choice) == (q.0, q.1.outcome)
  {
  }

  lemma AloneResumes(world: World, c: Catalog, r: Request, who: Option<Id>, basis: nat, resumed: Fault, choice: Choice)
    requires Standing(c) && basis < |c.history|
    ensures var q := TryResume(world, c, r, who, basis, resumed);
            && Placed(q.0, q.1)
            && Alone(world, c, r, Resuming(who, basis), resumed, choice) == Alone(world, q.0, r, q.1, resumed, choice)
  {
    ResumeDescends(world, c, r, who, basis, resumed);
  }
}
