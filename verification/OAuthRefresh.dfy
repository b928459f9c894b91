/**
 * Any number of token managers sharing one stored bundle and one expiring lease
 * (src/external/oauth_tokens.py), as interleaved atomic steps.
 *
 * A manager runs one call at a time: load, acquire, re-read, exchange, validate, save, release.
 * The authorization server may rotate the refresh token at each exchange (section 6 and
 * section 10.4 of RFC 6749). Lost replies, failed saves, lost lease replies, lease expiry and the
 * death of a manager are steps of their own.
 */
module OAuthRefresh {
  import opened Wrappers
  import opened OAuthTokens

  /** The lease row; owners are numbered in the order they are drawn. */
  datatype Row = Row(owner: nat, expiresAt: int)

  datatype Cell = Cell(version: nat, bundle: Bundle)

  /** Where a manager stands in its call. */
  datatype Pc =
    | Idle
    | Loaded(observed: Bundle, forced: bool)
    | Denied(observed: Bundle, forced: bool)
    | Held(observed: Bundle, forced: bool, row: Row)
    | Sending(current: Bundle, version: nat, row: Row)
    | Received(current: Bundle, version: nat, reply: Reply, row: Row)
    | Saving(refreshed: Bundle, version: nat, row: Row)
    | Releasing(row: Row)
  {
    predicate HasLease() {
      Held? || Sending? || Received? || Saving? || Releasing?
    }

    /** From acquiring the lease up to the end of the save. */
    predicate Critical() {
      Held? || Sending? || Received? || Saving?
    }

    /** The server has honoured an exchange whose result is not stored yet. */
    predicate InFlight() {
      Received? || Saving?
    }
  }

  datatype Config = Config(leaseSeconds: int, margin: int)

  datatype State = State(
    clock: int,
    drawn: nat,             // owners drawn so far
    lease: Option<Row>,
    store: Cell,
    latest: string,         // the refresh token the server issued last
    exchanged: seq<nat>,    // store versions whose bundle the server has honoured, in order
    managers: seq<Pc>)

  datatype AcquireOutcome = Granted | GrantLost | Refused

  datatype ExchangeOutcome =
    | Honoured(reply: Reply)
    | HonouredLost(rotated: Option<string>)
    | Rejected

  datatype SaveOutcome = Landed | Unconfirmed | NotLanded

  datatype Step =
    | Tick(to: int)
    | Load(p: nat, forced: bool)
    | Acquire(p: nat, now: int, granted: AcquireOutcome)
    | FallBack(p: nat)
    | Reread(p: nat, failed: bool)
    | Exchange(p: nat, answer: ExchangeOutcome)
    | Validate(p: nat, now: int)
    | Save(p: nat, landed: SaveOutcome)
    | Release(p: nat, reached: bool)
    | Die(p: nat)

  predicate Stale(cfg: Config, b: Bundle, now: int) {
    b.expiresAt - now <= cfg.margin
  }

  predicate LeaseFree(lease: Option<Row>, now: int) {
    lease.None? || lease.value.expiresAt <= now
  }

  /** A manager standing at `pc` can take the step. */
  predicate Ready(cfg: Config, s: State, step: Step, pc: Pc) {
    match step
    case Tick(_) => true
    case Load(_, forced) => pc.Idle? && Loadable(s.store.bundle, s.clock) && (forced || Stale(cfg, s.store.bundle, s.clock))
    case Acquire(_, now, granted) => pc.Loaded? && now <= s.clock && (granted.Refused? || LeaseFree(s.lease, now))
    case FallBack(_) => pc.Denied?
    case Reread(_, failed) => pc.Held? && (failed || Loadable(s.store.bundle, s.clock))
    case Exchange(_, _) => pc.Sending?
    case Validate(_, now) => pc.Received? && now <= s.clock
    case Save(_, landed) => pc.Saving? && (ValidStored(pc.refreshed, s.clock) || landed.NotLanded?)
    case Release(_, _) => pc.Releasing?
    case Die(_) => !pc.Idle?
  }

  predicate Enabled(cfg: Config, s: State, step: Step) {
    if step.Tick? then s.clock <= step.to
    else step.p < |s.managers| && Ready(cfg, s, step, s.managers[step.p])
  }

  /** The token the server holds valid after answering with `reply`. */
  function Issued(latest: string, reply: Reply): string {
    if reply.refreshToken.Text? then reply.refreshToken.text else latest
  }

  /** What the step does to everything but the manager's own place. */
  function Effect(cfg: Config, s: State, step: Step, pc: Pc): State
    requires Ready(cfg, s, step, pc)
  {
    match step
    case Tick(to) => s.(clock := to)
    case Acquire(_, now, granted) =>
      s.(drawn := s.drawn + 1, lease := if granted.Refused? then s.lease else Some(Row(s.drawn, now + cfg.leaseSeconds)))
    case Exchange(_, answer) =>
      (match answer
       case Honoured(reply) => s.(latest := Issued(s.latest, reply), exchanged := s.exchanged + [pc.version])
       case HonouredLost(rotated) =>
         s.(latest := if rotated.Some? then rotated.value else s.latest, exchanged := s.exchanged + [pc.version])
       case Rejected => s)
    case Save(_, landed) => if landed.NotLanded? then s else s.(store := Cell(s.store.version + 1, pc.refreshed))
    case Release(_, reached) =>
      if reached && s.lease.Some? && s.lease.value.owner == pc.row.owner then s.(lease := None) else s
    case Load(_, _) => s
    case FallBack(_) => s
    case Reread(_, _) => s
    case Validate(_, _) => s
    case Die(_) => s
  }

  /** Where the step leaves the manager that takes it. */
  function NextPc(cfg: Config, s: State, step: Step, pc: Pc): Pc
    requires Ready(cfg, s, step, pc)
  {
    match step
    case Tick(_) => pc
    case Load(_, forced) => Loaded(s.store.bundle, forced)
    case Acquire(_, now, granted) =>
      if granted.Granted? then Held(pc.observed, pc.forced, Row(s.drawn, now + cfg.leaseSeconds))
      else Denied(pc.observed, pc.forced)
    case FallBack(_) => Idle
    case Reread(_, failed) =>
      if !failed && s.store.bundle == pc.observed && (pc.forced || Stale(cfg, s.store.bundle, s.clock)) then
        Sending(s.store.bundle, s.store.version, pc.row)
      else
        Releasing(pc.row)
    case Exchange(_, answer) =>
      if answer.Honoured? then Received(pc.current, pc.version, answer.reply, pc.row) else Releasing(pc.row)
    case Validate(_, now) =>
      (match Refreshed(pc.current, pc.reply, now)
       case Success(b) => Saving(b, pc.version, pc.row)
       case Failure(_) => Releasing(pc.row))
    case Save(_, _) => Releasing(pc.row)
    case Release(_, _) => Idle
    case Die(_) => Idle
  }

  function Apply(cfg: Config, s: State, step: Step): State
    requires Enabled(cfg, s, step)
  {
    if step.Tick? then s.(clock := step.to)
    else
      var pc := s.managers[step.p];
      Effect(cfg, s, step, pc).(managers := s.managers[step.p := NextPc(cfg, s, step, pc)])
  }

  // ---------------------------------------------------------------- runs

  /** The state a run ends in; `None` when some step was not enabled. */
  function Run(cfg: Config, s: State, steps: seq<Step>): Option<State>
    decreases |steps|
  {
    if steps == [] then Some(s)
    else
      var before := Run(cfg, s, steps[..|steps| - 1]);
      if before.Some? && Enabled(cfg, before.value, steps[|steps| - 1]) then
        Some(Apply(cfg, before.value, steps[|steps| - 1]))
      else
        None
  }

  predicate Initial(s: State) {
    && (forall p :: 0 <= p < |s.managers| ==> s.managers[p].Idle?)
    && (s.lease.Some? ==> s.lease.value.owner < s.drawn)
    && Loadable(s.store.bundle, s.clock)
    && s.store.bundle.refreshToken == s.latest
    && s.exchanged == []
  }

  // ---------------------------------------------------------------- the hazards

  /** Some manager is inside its critical section although its lease has run out. */
  predicate Overrun(s: State) {
    exists p :: 0 <= p < |s.managers| && s.managers[p].Critical() && s.managers[p].row.expiresAt <= s.clock
  }

  /** The step loses an issued token: an honoured reply is lost or refused, or its holder dies with it. */
  predicate LosesReply(s: State, step: Step)
  {
    || (step.Exchange? && step.answer.HonouredLost?)
    || (step.Validate? && step.p < |s.managers| && s.managers[step.p].Received? &&
        Refreshed(s.managers[step.p].current, s.managers[step.p].reply, step.now).Failure?)
    || (step.Die? && step.p < |s.managers| && s.managers[step.p].InFlight())
  }

  predicate FailsSave(step: Step) {
    step.Save? && step.landed.NotLanded?
  }

  /** The hazards a run is allowed to contain. */
  datatype Hazards = Hazards(overrun: bool, lostReply: bool, failedSave: bool)

  const NONE := Hazards(false, false, false)

  /** Only allowed hazards occur along the run. */
  predicate Within(cfg: Config, s: State, steps: seq<Step>, allowed: Hazards)
    requires Run(cfg, s, steps).Some?
    decreases |steps|
  {
    && (allowed.overrun || !Overrun(Run(cfg, s, steps).value))
    && (steps == [] ||
        (var before := steps[..|steps| - 1];
         && Within(cfg, s, before, allowed)
         && (allowed.lostReply || !LosesReply(Run(cfg, s, before).value, steps[|steps| - 1]))
         && (allowed.failedSave || !FailsSave(steps[|steps| - 1]))))
  }

  /** The manager is about to send a refresh token other than the one issued last. */
  predicate SendsStaleToken(s: State, p: nat) {
    p < |s.managers| && s.managers[p].Sending? && s.managers[p].current.refreshToken != s.latest
  }
}
