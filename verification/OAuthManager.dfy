/**
 * The token manager's refresh under the lease, as the imperative code it is (src/external/oauth_tokens.py), run by one
 * of any number of managers. Every stage is one step of `OAuthRefresh` by that manager; between two stages time may
 * pass and the other managers may take any steps.
 */
module OAuthManager {
  import opened Wrappers
  import opened OAuthTokens
  import opened OAuthRefresh
  import opened OAuthRefreshLaws

  /** What the outside world does to one call. */
  datatype Weather = Weather(
    acquire: AcquireOutcome, readFails: bool, answer: ExchangeOutcome, save: SaveOutcome, releaseReached: bool)

  datatype CallError = ReadFailed | LeaseUnavailable | RefreshFailed | BundleInvalid(error: TokenError) | WriteFailed | PersistenceUncertain

  type CallResult = Result<(Bundle, bool), CallError>

  // ---------------------------------------------------------------- runs

  lemma RunOn(cfg: Config, s: State, steps: seq<Step>, t: State, step: Step) returns (longer: seq<Step>)
    requires Run(cfg, s, steps) == Some(t) && Enabled(cfg, t, step)
    ensures Run(cfg, s, longer) == Some(Apply(cfg, t, step)) && steps <= longer
  {
    longer := steps + [step];
    assert longer[..|longer| - 1] == steps;
  }

  /** Runs compose. */
  lemma {:induction false} RunConcat(cfg: Config, s: State, a: seq<Step>, b: seq<Step>)
    requires Run(cfg, s, a).Some?
    ensures Run(cfg, s, a + b) == Run(cfg, Run(cfg, s, a).value, b)
    decreases |b|
  {
    if b == [] {
      assert a + b == a;
    } else {
      RunConcat(cfg, s, a, b[..|b| - 1]);
      assert (a + b)[..|a + b| - 1] == a + b[..|b| - 1];
    }
  }

  /** None of the steps is taken by manager `p`. */
  predicate Spares(steps: seq<Step>, p: nat) {
    forall i :: 0 <= i < |steps| ==> steps[i].Tick? || steps[i].p != p
  }

  lemma SpareStep(cfg: Config, s: State, step: Step, p: nat)
    requires Enabled(cfg, s, step) && p < |s.managers| && (step.Tick? || step.p != p)
    ensures var t := Apply(cfg, s, step);
            p < |t.managers| && t.managers[p] == s.managers[p] && s.clock <= t.clock && s.exchanged <= t.exchanged
  {
  }

  lemma {:induction false} OthersSpare(cfg: Config, s: State, steps: seq<Step>, p: nat)
    requires Run(cfg, s, steps).Some? && Spares(steps, p) && p < |s.managers|
    ensures var t := Run(cfg, s, steps).value;
            p < |t.managers| && t.managers[p] == s.managers[p] && s.clock <= t.clock && s.exchanged <= t.exchanged
    decreases |steps|
  {
    if steps != [] {
      var before := steps[..|steps| - 1];
      OthersSpare(cfg, s, before, p);
      SpareStep(cfg, Run(cfg, s, before).value, steps[|steps| - 1], p);
    }
  }

  /** The bundle was the stored one at some point of the run. */
  ghost predicate WasStored(cfg: Config, s: State, steps: seq<Step>, b: Bundle) {
    exists k :: 0 <= k <= |steps| && Run(cfg, s, steps[..k]).Some? && Run(cfg, s, steps[..k]).value.store.bundle == b
  }

  lemma StoredNow(cfg: Config, s: State, steps: seq<Step>)
    requires Run(cfg, s, steps).Some?
    ensures WasStored(cfg, s, steps, Run(cfg, s, steps).value.store.bundle)
  {
    assert steps[..|steps|] == steps;
  }

  lemma StoredStays(cfg: Config, s: State, steps: seq<Step>, longer: seq<Step>, b: Bundle)
    requires WasStored(cfg, s, steps, b) && steps <= longer
    ensures WasStored(cfg, s, longer, b)
  {
    var k :| 0 <= k <= |steps| && Run(cfg, s, steps[..k]).Some? && Run(cfg, s, steps[..k]).value.store.bundle == b;
    assert longer[..k] == steps[..k];
  }

  lemma StoredIsInGrant(cfg: Config, s: State, steps: seq<Step>, b: Bundle)
    requires Initial(s) && WasStored(cfg, s, steps, b)
    ensures SameGrant(b, s.store.bundle)
  {
    var k :| 0 <= k <= |steps| && Run(cfg, s, steps[..k]).Some? && Run(cfg, s, steps[..k]).value.store.bundle == b;
    StoreStaysInGrant(cfg, s, steps[..k]);
  }

  /** Wherever along the run manager `p` is about to send, the token is the latest and its version was never honoured. */
  ghost predicate SendsFresh(cfg: Config, s: State, steps: seq<Step>, p: nat) {
    forall k :: 0 <= k <= |steps| && Run(cfg, s, steps[..k]).Some? ==>
      var t := Run(cfg, s, steps[..k]).value;
      p < |t.managers| && t.managers[p].Sending? ==>
        t.managers[p].current.refreshToken == t.latest && t.managers[p].version !in t.exchanged
  }

  lemma {:induction false} CalmPrefix(cfg: Config, s: State, steps: seq<Step>, k: nat)
    requires Run(cfg, s, steps).Some? && Within(cfg, s, steps, NONE) && k <= |steps|
    ensures Run(cfg, s, steps[..k]).Some? && Within(cfg, s, steps[..k], NONE)
    decreases |steps|
  {
    if k == |steps| {
      assert steps[..k] == steps;
    } else {
      CalmPrefix(cfg, s, steps[..|steps| - 1], k);
      assert steps[..|steps| - 1][..k] == steps[..k];
    }
  }

  lemma CalmSendsFresh(cfg: Config, s: State, steps: seq<Step>, p: nat)
    requires Initial(s) && Run(cfg, s, steps).Some? && Within(cfg, s, steps, NONE)
    ensures SendsFresh(cfg, s, steps, p)
  {
    forall k | 0 <= k <= |steps|
      ensures Run(cfg, s, steps[..k]).Some?
      ensures var t := Run(cfg, s, steps[..k]).value;
              p < |t.managers| && t.managers[p].Sending? ==>
                t.managers[p].current.refreshToken == t.latest && t.managers[p].version !in t.exchanged
    {
      CalmPrefix(cfg, s, steps, k);
      var t := Run(cfg, s, steps[..k]).value;
      if p < |t.managers| && t.managers[p].Sending? {
        FreshTokenSent(cfg, s, steps[..k], p);
      }
    }
  }

  // ---------------------------------------------------------------- the call

  /** The re-read bundle can be used as it is. */
  predicate AlreadyServed(cfg: Config, current: Bundle, observed: Bundle, forced: bool, now: int) {
    current != observed || (!forced && !Stale(cfg, current, now))
  }

  /** What a call returns when it does not get the lease. */
  function WithoutLease(cfg: Config, current: Bundle, observed: Bundle, forced: bool, now: int, readFails: bool): CallResult {
    if readFails || !Loadable(current, now) then Failure(ReadFailed)
    else if AlreadyServed(cfg, current, observed, forced, now) then Success((current, false))
    else Failure(LeaseUnavailable)
  }

  /** What an exchange of `current` comes to, left alone: the bundle stored, or the error. */
  function Renewal(current: Bundle, env: Weather, now: int): CallResult {
    if !env.answer.Honoured? then Failure(RefreshFailed)
    else match Refreshed(current, env.answer.reply, now)
      case Failure(error) => Failure(BundleInvalid(error))
      case Success(b) =>
        if ValidStored(b, now) && env.save.Landed? then Success((b, b.refreshToken != current.refreshToken))
        else if b.refreshToken != current.refreshToken then Failure(PersistenceUncertain)
        else Failure(WriteFailed)
  }

  /** The renewed bundle reaches the store, confirmed or not. */
  predicate Renews(current: Bundle, env: Weather, now: int) {
    && env.answer.Honoured? && Refreshed(current, env.answer.reply, now).Success?
    && ValidStored(Refreshed(current, env.answer.reply, now).value, now) && !env.save.NotLanded?
  }

  function StoreAfter(store: Cell, current: Bundle, env: Weather, now: int): Cell {
    if Renews(current, env, now) then Cell(store.version + 1, Refreshed(current, env.answer.reply, now).value) else store
  }

  /** The same with the lease held. */
  predicate UnderLease(cfg: Config, s: State, observed: Bundle, forced: bool, env: Weather, r: CallResult, store: Cell) {
    if env.readFails || !Loadable(s.store.bundle, s.clock) then r == Failure(ReadFailed) && store == s.store
    else if AlreadyServed(cfg, s.store.bundle, observed, forced, s.clock) then r == Success((s.store.bundle, false)) && store == s.store
    else r == Renewal(s.store.bundle, env, s.clock) && store == StoreAfter(s.store, s.store.bundle, env, s.clock)
  }

  /**
   * What a call left alone returns and leaves stored, exactly. The stored bundle is returned when it can be read and is
   * already good enough, lease or no lease; otherwise the lease decides, and with it the exchange and the save.
   */
  predicate Answers(cfg: Config, s: State, observed: Bundle, forced: bool, env: Weather, r: CallResult, store: Cell) {
    var readable := !env.readFails && Loadable(s.store.bundle, s.clock);
    var served := AlreadyServed(cfg, s.store.bundle, observed, forced, s.clock);
    var granted := LeaseFree(s.lease, s.clock) && env.acquire.Granted?;
    if !readable then r == Failure(ReadFailed) && store == s.store
    else if served then r == Success((s.store.bundle, false)) && store == s.store
    else if !granted then r == Failure(LeaseUnavailable) && store == s.store
    else r == Renewal(s.store.bundle, env, s.clock) && store == StoreAfter(s.store, s.store.bundle, env, s.clock)
  }

  /** The call has to refresh: the stored bundle can be read, will not do, and the lease is granted. */
  predicate MustRefresh(cfg: Config, s: State, observed: Bundle, forced: bool, env: Weather) {
    && !env.readFails && Loadable(s.store.bundle, s.clock)
    && s.store.bundle == observed && (forced || s.store.bundle.expiresAt - s.clock <= cfg.margin)
    && (s.lease.None? || s.lease.value.expiresAt <= s.clock) && env.acquire.Granted?
  }

  /** A valid renewal of a loadable bundle can always be stored, so success needs only the listed outcomes. */
  lemma SucceedsExactly(cfg: Config, s: State, observed: Bundle, forced: bool, env: Weather, r: CallResult, store: Cell)
    requires Answers(cfg, s, observed, forced, env, r, store)
    ensures r.Success? <==>
              && !env.readFails && Loadable(s.store.bundle, s.clock)
              && (|| s.store.bundle != observed
                  || (!forced && s.store.bundle.expiresAt - s.clock > cfg.margin)
                  || (&& MustRefresh(cfg, s, observed, forced, env)
                      && env.answer.Honoured? && Acceptable(env.answer.reply) && env.save.Landed?))
  {
    if Loadable(s.store.bundle, s.clock) && env.answer.Honoured? {
      RefreshedExactly(s.store.bundle, env.answer.reply, s.clock, s.clock);
      if Acceptable(env.answer.reply) {
        RefreshKeepsGrant(s.store.bundle, env.answer.reply, s.clock, s.clock, s.clock);
      }
    }
  }

  /**
   * A call left alone changes the store exactly when it has to refresh, the reply is acceptable and the write takes
   * effect; the new bundle is then what the reply yields, and a call that succeeds returns what is stored.
   */
  lemma StoresExactly(cfg: Config, s: State, observed: Bundle, forced: bool, env: Weather, r: CallResult, store: Cell)
    requires Answers(cfg, s, observed, forced, env, r, store)
    ensures store != s.store <==>
              && MustRefresh(cfg, s, observed, forced, env)
              && env.answer.Honoured? && Acceptable(env.answer.reply) && !env.save.NotLanded?
    ensures store != s.store ==>
              store.version == s.store.version + 1 && Yields(s.store.bundle, env.answer.reply, s.clock, store.bundle)
    ensures r.Success? ==> r.value.0 == store.bundle
    ensures r.Success? ==> (r.value.1 <==> store.bundle.refreshToken != s.store.bundle.refreshToken)
  {
    if Loadable(s.store.bundle, s.clock) && env.answer.Honoured? {
      RefreshedExactly(s.store.bundle, env.answer.reply, s.clock, s.clock);
      if Acceptable(env.answer.reply) {
        RefreshKeepsGrant(s.store.bundle, env.answer.reply, s.clock, s.clock, s.clock);
      }
    }
  }

  lemma AnswersStored(cfg: Config, s: State, observed: Bundle, forced: bool, env: Weather, r: CallResult, store: Cell)
    requires Answers(cfg, s, observed, forced, env, r, store)
    ensures store != s.store ==>
              && env.answer.Honoured? && Acceptable(env.answer.reply)
              && store.version == s.store.version + 1 && Yields(s.store.bundle, env.answer.reply, s.clock, store.bundle)
    ensures r.Success? ==>
              r.value.0 == store.bundle && (MustRefresh(cfg, s, observed, forced, env) ==> store != s.store)
  {
    StoresExactly(cfg, s, observed, forced, env, r, store);
    SucceedsExactly(cfg, s, observed, forced, env, r, store);
  }

  /** Each error of a call left alone, in terms of what happened to it. */
  lemma FailsExactly(cfg: Config, s: State, observed: Bundle, forced: bool, env: Weather, r: CallResult, store: Cell)
    requires Answers(cfg, s, observed, forced, env, r, store)
    ensures var must := MustRefresh(cfg, s, observed, forced, env);
            var accepted := must && env.answer.Honoured? && Acceptable(env.answer.reply);
            var rotated := env.answer.Honoured? && env.answer.reply.refreshToken.Text? &&
                           env.answer.reply.refreshToken.text != s.store.bundle.refreshToken;
            && (r == Failure(ReadFailed) <==> env.readFails || !Loadable(s.store.bundle, s.clock))
            && (r == Failure(LeaseUnavailable) <==>
                  && !env.readFails && Loadable(s.store.bundle, s.clock)
                  && s.store.bundle == observed && (forced || s.store.bundle.expiresAt - s.clock <= cfg.margin) && !must)
            && (r == Failure(RefreshFailed) <==> must && !env.answer.Honoured?)
            && (r.Failure? && r.error.BundleInvalid? <==> must && env.answer.Honoured? && !Acceptable(env.answer.reply))
            && (r == Failure(PersistenceUncertain) <==> accepted && !env.save.Landed? && rotated)
            && (r == Failure(WriteFailed) <==> accepted && !env.save.Landed? && !rotated)
  {
    if Loadable(s.store.bundle, s.clock) && env.answer.Honoured? {
      RefreshedExactly(s.store.bundle, env.answer.reply, s.clock, s.clock);
      if Acceptable(env.answer.reply) {
        RefreshKeepsGrant(s.store.bundle, env.answer.reply, s.clock, s.clock, s.clock);
      }
    }
  }

  /** What becomes of the conditional put. */
  function Grant(lease: Option<Row>, now: int, outcome: AcquireOutcome): AcquireOutcome {
    if LeaseFree(lease, now) then outcome else Refused
  }

  /** The shared store, lease and server, and the managers that use them. */
  class Service {
    var clock: int
    var drawn: nat
    var lease: Option<Row>
    var store: Cell
    var latest: string
    var exchanged: seq<nat>
    var managers: seq<Pc>

    function Here(): State
      reads this
    {
      State(clock, drawn, lease, store, latest, exchanged, managers)
    }

    constructor (clock: int, bundle: Bundle, n: nat)
      ensures Here() == State(clock, 0, None, Cell(0, bundle), bundle.refreshToken, [], seq(n, i => Idle))
    {
      this.clock, this.drawn, this.lease := clock, 0, None;
      this.store, this.latest, this.exchanged := Cell(0, bundle), bundle.refreshToken, [];
      this.managers := seq(n, i => Idle);
    }

    /** The steps lead from `start` to the service as it is. */
    ghost predicate Reached(cfg: Config, start: State, steps: seq<Step>)
      reads this
    {
      Run(cfg, start, steps) == Some(Here())
    }

    /** Time passes and other managers take the given steps, if they can. */
    method Meanwhile(cfg: Config, p: nat, others: seq<Step>, ghost start: State, ghost before: seq<Step>)
      returns (ghost steps: seq<Step>)
      requires p < |managers| && Reached(cfg, start, before)
      modifies this
      ensures p < |managers| && managers[p] == old(managers[p]) && Reached(cfg, start, steps) && before <= steps
      ensures old(clock) <= clock && old(exchanged) <= exchanged
      ensures others == [] ==> Here() == old(Here())
    {
      steps := before;
      var after := Run(cfg, Here(), others);
      if after.Some? && Spares(others, p) {
        OthersSpare(cfg, Here(), others, p);
        RunConcat(cfg, start, before, others);
        steps := before + others;
        var s := after.value;
        clock, drawn, lease, store := s.clock, s.drawn, s.lease, s.store;
        latest, exchanged, managers := s.latest, s.exchanged, s.managers;
      }
    }

    /** `DynamoDBRefreshLease.acquire`: a conditional put that loses its reply or fails counts as refused. */
    method AcquireLease(cfg: Config, p: nat, now: int, outcome: AcquireOutcome, ghost start: State, ghost before: seq<Step>)
      returns (row: Option<Row>, ghost steps: seq<Step>)
      requires p < |managers| && managers[p].Loaded? && now <= clock && Reached(cfg, start, before)
      modifies this`drawn, this`lease, this`managers
      ensures Here() == Apply(cfg, old(Here()), Acquire(p, now, Grant(old(lease), now, outcome)))
      ensures Reached(cfg, start, steps) && before <= steps && p < |managers|
      ensures row.Some? <==> old(LeaseFree(lease, now)) && outcome.Granted?
      ensures var was := old(managers[p]);
              managers[p] == if row.Some? then Held(was.observed, was.forced, row.value) else Denied(was.observed, was.forced)
    {
      steps := RunOn(cfg, start, before, Here(), Acquire(p, now, Grant(lease, now, outcome)));
      var pc := managers[p];
      var mine := Row(drawn, now + cfg.leaseSeconds);
      drawn := drawn + 1;
      row := None;
      if !outcome.Refused? && LeaseFree(lease, now) {
        lease := Some(mine);
        row := if outcome.Granted? then Some(mine) else None;
      }
      managers := managers[p := if row.Some? then Held(pc.observed, pc.forced, mine) else Denied(pc.observed, pc.forced)];
    }

    /** `DynamoDBRefreshLease.release`: a delete conditional on the owner. */
    method ReleaseLease(cfg: Config, p: nat, reached: bool, ghost start: State, ghost before: seq<Step>)
      returns (ghost steps: seq<Step>)
      requires p < |managers| && managers[p].Releasing? && Reached(cfg, start, before)
      modifies this`lease, this`managers
      ensures Here() == Apply(cfg, old(Here()), Release(p, reached))
      ensures Reached(cfg, start, steps) && before <= steps && p < |managers| && managers[p].Idle?
    {
      steps := RunOn(cfg, start, before, Here(), Release(p, reached));
      if reached && lease.Some? && lease.value.owner == managers[p].row.owner {
        lease := None;
      }
      managers := managers[p := Idle];
    }

    /** Without the lease: what someone else stored is used, or nothing is. */
    method FallBackOnStore(cfg: Config, p: nat, readFails: bool, ghost start: State, ghost before: seq<Step>)
      returns (r: CallResult, ghost steps: seq<Step>)
      requires p < |managers| && managers[p].Denied? && Reached(cfg, start, before)
      modifies this`managers
      ensures Here() == Apply(cfg, old(Here()), FallBack(p))
      ensures Reached(cfg, start, steps) && before <= steps && p < |managers| && managers[p].Idle?
      ensures var was := old(managers[p]);
              r.Success? <==>
                && !readFails && Loadable(store.bundle, clock)
                && (store.bundle != was.observed || (!was.forced && !Stale(cfg, store.bundle, clock)))
      ensures r.Success? ==> r.value == (store.bundle, false)
      ensures r.Failure? ==>
                r.error == if readFails || !Loadable(store.bundle, clock) then ReadFailed else LeaseUnavailable
    {
      steps := RunOn(cfg, start, before, Here(), FallBack(p));
      r := WithoutLease(cfg, store.bundle, managers[p].observed, managers[p].forced, clock, readFails);
      managers := managers[p := Idle];
    }

    /** The re-read under the lease. */
    method Reread(cfg: Config, p: nat, readFails: bool, ghost start: State, ghost before: seq<Step>)
      returns (r: Option<CallResult>, ghost steps: seq<Step>)
      requires p < |managers| && managers[p].Held? && Reached(cfg, start, before)
      modifies this`managers
      ensures Here() == Apply(cfg, old(Here()), OAuthRefresh.Step.Reread(p, readFails || !Loadable(store.bundle, clock)))
      ensures Reached(cfg, start, steps) && before <= steps && p < |managers|
      ensures if r.Some? then managers[p].Releasing? else managers[p].Sending? && managers[p].current == store.bundle
      ensures var was, readable := old(managers[p]), !readFails && Loadable(store.bundle, clock);
              r == if !readable then Some(Failure(ReadFailed))
                   else if AlreadyServed(cfg, store.bundle, was.observed, was.forced, clock) then Some(Success((store.bundle, false)))
                   else None
    {
      var failed := readFails || !Loadable(store.bundle, clock);
      steps := RunOn(cfg, start, before, Here(), OAuthRefresh.Step.Reread(p, failed));
      var pc := managers[p];
      if failed {
        r := Some(Failure(ReadFailed));
      } else if AlreadyServed(cfg, store.bundle, pc.observed, pc.forced, clock) {
        r := Some(Success((store.bundle, false)));
      } else {
        r := None;
      }
      managers := managers[p := if r.Some? then Releasing(pc.row) else Sending(store.bundle, store.version, pc.row)];
    }

    /** The token request; an error, or a reply that is lost, ends the refresh. */
    method ExchangeToken(cfg: Config, p: nat, answer: ExchangeOutcome, ghost start: State, ghost before: seq<Step>)
      returns (ghost steps: seq<Step>)
      requires p < |managers| && managers[p].Sending? && Reached(cfg, start, before)
      modifies this`latest, this`exchanged, this`managers
      ensures Here() == Apply(cfg, old(Here()), Exchange(p, answer))
      ensures Reached(cfg, start, steps) && before <= steps && p < |managers|
      ensures if answer.Honoured?
              then managers[p] == Received(old(managers[p].current), old(managers[p].version), answer.reply, old(managers[p].row))
              else managers[p].Releasing?
      ensures old(exchanged) <= exchanged && (!answer.Rejected? ==> old(managers[p].version) in exchanged)
    {
      steps := RunOn(cfg, start, before, Here(), Exchange(p, answer));
      var pc := managers[p];
      if !answer.Rejected? {
        exchanged := exchanged + [pc.version];
        assert exchanged[|exchanged| - 1] == pc.version;
      }
      if answer.HonouredLost? {
        latest := if answer.rotated.Some? then answer.rotated.value else latest;
      } else if answer.Honoured? {
        latest := Issued(latest, answer.reply);
      }
      managers := managers[p := if answer.Honoured? then Received(pc.current, pc.version, answer.reply, pc.row) else Releasing(pc.row)];
    }

    /** The reply is checked against the bundle that was sent. */
    method ValidateReply(cfg: Config, p: nat, ghost start: State, ghost before: seq<Step>)
      returns (refreshed: Result<Bundle, TokenError>, ghost steps: seq<Step>)
      requires p < |managers| && managers[p].Received? && Reached(cfg, start, before)
      modifies this`managers
      ensures Here() == Apply(cfg, old(Here()), Validate(p, clock))
      ensures Reached(cfg, start, steps) && before <= steps && p < |managers|
      ensures refreshed == Refreshed(old(managers[p].current), old(managers[p].reply), clock)
      ensures refreshed.Success? ==>
                var b, was := refreshed.value, old(managers[p]);
                && was.reply.accessToken.Text? && b.accessToken == was.reply.accessToken.text
                && was.reply.expiresIn.Seconds? && b.expiresAt == clock + was.reply.expiresIn.n
                && b.tokenType == "Bearer"
                && b.refreshToken == (if was.reply.refreshToken.Text? then was.reply.refreshToken.text else was.current.refreshToken)
      ensures if refreshed.Success? then managers[p].Saving? && managers[p].refreshed == refreshed.value else managers[p].Releasing?
    {
      steps := RunOn(cfg, start, before, Here(), Validate(p, clock));
      var pc := managers[p];
      refreshed := Refreshed(pc.current, pc.reply, clock);
      managers := managers[p := if refreshed.Success? then Saving(refreshed.value, pc.version, pc.row) else Releasing(pc.row)];
    }

    /** The save; it does not land when the bundle is no longer valid or the write fails. */
    method SaveBundle(cfg: Config, p: nat, outcome: SaveOutcome, ghost start: State, ghost before: seq<Step>)
      returns (saved: bool, ghost steps: seq<Step>)
      requires p < |managers| && managers[p].Saving? && Reached(cfg, start, before)
      modifies this`store, this`managers
      ensures Here() == Apply(cfg, old(Here()), Save(p, if ValidStored(old(managers[p].refreshed), clock) then outcome else NotLanded))
      ensures Reached(cfg, start, steps) && before <= steps && p < |managers| && managers[p].Releasing?
      ensures var valid := ValidStored(old(managers[p].refreshed), clock);
              && (saved <==> valid && outcome.Landed?)
              && store == if valid && !outcome.NotLanded? then Cell(old(store.version) + 1, old(managers[p].refreshed)) else old(store)
    {
      var pc := managers[p];
      var landed := if ValidStored(pc.refreshed, clock) then outcome else NotLanded;
      steps := RunOn(cfg, start, before, Here(), Save(p, landed));
      if !landed.NotLanded? {
        store := Cell(store.version + 1, pc.refreshed);
      }
      saved := landed.Landed?;
      managers := managers[p := Releasing(pc.row)];
    }

    /** `_refresh_bundle`, from the exchange to the save. */
    method RefreshBundle(cfg: Config, p: nat, env: Weather, others: nat -> seq<Step>, ghost start: State, ghost before: seq<Step>)
      returns (r: CallResult, ghost steps: seq<Step>)
      requires p < |managers| && managers[p].Sending? && Reached(cfg, start, before)
      modifies this
      ensures p < |managers| && managers[p].Releasing? && Reached(cfg, start, steps) && before <= steps
      ensures r.Success? ==> WasStored(cfg, start, steps, r.value.0)
      ensures r.Success? ==> r.value.1 == (r.value.0.refreshToken != old(managers[p].current.refreshToken))
      ensures r == Failure(PersistenceUncertain) ==> old(managers[p].version) in exchanged
      ensures (forall k :: others(k) == []) ==>
                && r == Renewal(old(managers[p].current), env, old(clock))
                && store == StoreAfter(old(store), old(managers[p].current), env, old(clock))
    {
      var current := managers[p].current;
      ghost var version := managers[p].version;
      steps := ExchangeToken(cfg, p, env.answer, start, before);
      if !env.answer.Honoured? {
        return Failure(RefreshFailed), steps;
      }
      steps := Meanwhile(cfg, p, others(3), start, steps);
      var refreshed;
      refreshed, steps := ValidateReply(cfg, p, start, steps);
      if refreshed.Failure? {
        return Failure(BundleInvalid(refreshed.error)), steps;
      }
      steps := Meanwhile(cfg, p, others(4), start, steps);
      var rotated, saved := refreshed.value.refreshToken != current.refreshToken, false;
      saved, steps := SaveBundle(cfg, p, env.save, start, steps);
      StoredNow(cfg, start, steps);
      assert version in exchanged;
      r := if saved then Success((refreshed.value, rotated))
           else if rotated then Failure(PersistenceUncertain) else Failure(WriteFailed);
    }

    /** The lease is held: re-read, refresh unless someone else already did, and release in the end. */
    method RefreshUnderLease(cfg: Config, p: nat, env: Weather, others: nat -> seq<Step>, ghost start: State, ghost before: seq<Step>)
      returns (r: CallResult, ghost steps: seq<Step>)
      requires p < |managers| && managers[p].Held? && Reached(cfg, start, before)
      modifies this
      ensures p < |managers| && managers[p].Idle? && Reached(cfg, start, steps) && before <= steps
      ensures r.Success? ==> WasStored(cfg, start, steps, r.value.0)
      ensures (forall k :: others(k) == []) ==>
                UnderLease(cfg, old(Here()), old(managers[p].observed), old(managers[p].forced), env, r, store)
    {
      var served;
      steps := Meanwhile(cfg, p, others(1), start, before);
      served, steps := Reread(cfg, p, env.readFails, start, steps);
      if served.Some? {
        r := served.value;
        StoredNow(cfg, start, steps);
      } else {
        steps := Meanwhile(cfg, p, others(2), start, steps);
        r, steps := RefreshBundle(cfg, p, env, others, start, steps);
      }
      ghost var till := steps;
      steps := Meanwhile(cfg, p, others(5), start, steps);
      steps := ReleaseLease(cfg, p, env.releaseReached, start, steps);
      if r.Success? {
        StoredStays(cfg, start, till, steps, r.value.0);
      }
    }

    /** The call, walking on from `before`. */
    method Refresh(cfg: Config, p: nat, env: Weather, others: nat -> seq<Step>, ghost start: State, ghost before: seq<Step>)
      returns (r: CallResult, ghost steps: seq<Step>)
      requires p < |managers| && managers[p].Loaded? && Reached(cfg, start, before)
      modifies this
      ensures p < |managers| && managers[p].Idle? && Reached(cfg, start, steps) && before <= steps
      ensures r.Success? ==> WasStored(cfg, start, steps, r.value.0)
      ensures (forall k :: others(k) == []) ==>
                Answers(cfg, old(Here()), old(managers[p].observed), old(managers[p].forced), env, r, store)
    {
      var now := clock;
      var row;
      steps := Meanwhile(cfg, p, others(0), start, before);
      row, steps := AcquireLease(cfg, p, now, env.acquire, start, steps);
      if row.None? {
        steps := Meanwhile(cfg, p, others(1), start, steps);
        r, steps := FallBackOnStore(cfg, p, env.readFails, start, steps);
        StoredNow(cfg, start, steps);
      } else {
        r, steps := RefreshUnderLease(cfg, p, env, others, start, steps);
      }
    }

    /** The call from a reachable state: the laws of every run hold where it ends. */
    method RefreshInRun(cfg: Config, p: nat, env: Weather, others: nat -> seq<Step>, ghost origin: State, ghost history: seq<Step>)
      returns (r: CallResult, ghost steps: seq<Step>)
      requires Initial(origin) && Run(cfg, origin, history) == Some(Here())
      requires p < |managers| && managers[p].Loaded?
      modifies this
      ensures Run(cfg, origin, steps) == Some(Here()) && history <= steps
      ensures p < |managers| && managers[p].Idle?
      ensures LeaseInv(Here()) && GrantInv(origin.store.bundle, Here())
      ensures r.Success? ==> WasStored(cfg, origin, steps, r.value.0) && SameGrant(r.value.0, origin.store.bundle)
      ensures Within(cfg, origin, steps, NONE) ==> SendsFresh(cfg, origin, steps, p)
      ensures (forall k :: others(k) == []) ==>
                Answers(cfg, old(Here()), old(managers[p].observed), old(managers[p].forced), env, r, store)
    {
      r, steps := Refresh(cfg, p, env, others, origin, history);
      LeaseInvRun(cfg, origin, steps);
      StoreStaysInGrant(cfg, origin, steps);
      if r.Success? {
        StoredIsInGrant(cfg, origin, steps, r.value.0);
      }
      if Within(cfg, origin, steps, NONE) {
        CalmSendsFresh(cfg, origin, steps, p);
      }
    }

    /**
     * `_refresh_with_lease`, from any reachable state, whatever fails, however time passes and whatever the other
     * managers do between two stages: it ends idle in a reachable state, where the laws of every run hold, and a
     * bundle it returns was the stored one, within the original grant. Without the three hazards, a token it sends
     * is the one issued last. Left alone, what it returns and stores is exactly `Answers`.
     */
    method RefreshWithLease(cfg: Config, p: nat, env: Weather, others: nat -> seq<Step>, ghost origin: State, ghost history: seq<Step>)
      returns (r: CallResult, ghost steps: seq<Step>)
      requires Initial(origin) && Run(cfg, origin, history) == Some(Here())
      requires p < |managers| && managers[p].Loaded?
      modifies this
      ensures Run(cfg, origin, steps) == Some(Here()) && history <= steps
      ensures p < |managers| && managers[p].Idle?
      ensures LeaseInv(Here()) && GrantInv(origin.store.bundle, Here())
      ensures r.Success? ==> WasStored(cfg, origin, steps, r.value.0) && SameGrant(r.value.0, origin.store.bundle)
      ensures Within(cfg, origin, steps, NONE) ==> SendsFresh(cfg, origin, steps, p)
      ensures (forall k :: others(k) == []) ==>
                Answers(cfg, old(Here()), old(managers[p].observed), old(managers[p].forced), env, r, store)
      ensures (forall k :: others(k) == []) && store != old(store) ==>
                && env.answer.Honoured? && Acceptable(env.answer.reply)
                && store.version == old(store.version) + 1
                && Yields(old(store.bundle), env.answer.reply, old(clock), store.bundle)
      ensures (forall k :: others(k) == []) && r.Success? ==>
                && r.value.0 == store.bundle
                && (old(MustRefresh(cfg, Here(), managers[p].observed, managers[p].forced, env)) ==> store != old(store))
    {
      ghost var s, observed, forced := Here(), managers[p].observed, managers[p].forced;
      r, steps := RefreshInRun(cfg, p, env, others, origin, history);
      if forall k :: others(k) == [] {
        AnswersStored(cfg, s, observed, forced, env, r, store);
      }
    }
  }
}
