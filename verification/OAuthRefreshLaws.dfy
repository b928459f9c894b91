/** Safety of the shared refresh: what holds in every run, and what holds when no hazard occurs. */
module OAuthRefreshLaws {
  import opened Wrappers
  import opened OAuthTokens
  import opened OAuthRefresh

  // ---------------------------------------------------------------- the lease, in every run

  /** Owners are unique, and an unexpired lease held by a manager is the lease in the table. */
  ghost predicate LeaseInv(s: State) {
    && (s.lease.Some? ==> s.lease.value.owner < s.drawn)
    && (forall p :: 0 <= p < |s.managers| && s.managers[p].HasLease() ==>
          && s.managers[p].row.owner < s.drawn
          && (s.clock < s.managers[p].row.expiresAt ==> s.lease == Some(s.managers[p].row)))
    && (forall p, q :: 0 <= p < q < |s.managers| && s.managers[p].HasLease() && s.managers[q].HasLease() ==>
          s.managers[p].row.owner != s.managers[q].row.owner)
  }

  lemma LeaseInvStep(cfg: Config, s: State, step: Step)
    requires LeaseInv(s) && Enabled(cfg, s, step)
    ensures LeaseInv(Apply(cfg, s, step))
  {
    if step.Acquire? {
      LeaseInvAcquire(cfg, s, step);
    } else if !step.Tick? {
      var t := Apply(cfg, s, step);
      var pc := s.managers[step.p];
      RowsCarryOver(cfg, s, step);
      assert t.lease == s.lease || (t.lease.None? && step.Release? && s.lease.value.owner == pc.row.owner);
    }
  }

  /** A manager takes its row from acquiring the lease, and keeps it until it is idle. */
  lemma RowsCarryOver(cfg: Config, s: State, step: Step)
    requires Enabled(cfg, s, step) && !step.Acquire? && !step.Tick?
    ensures var pc, next := s.managers[step.p], NextPc(cfg, s, step, s.managers[step.p]);
            next.HasLease() ==> pc.HasLease() && next.row == pc.row && !step.Release?
    ensures Apply(cfg, s, step).drawn == s.drawn && Apply(cfg, s, step).clock == s.clock
  {
  }

  lemma LeaseInvAcquire(cfg: Config, s: State, step: Step)
    requires LeaseInv(s) && Enabled(cfg, s, step) && step.Acquire?
    ensures LeaseInv(Apply(cfg, s, step))
  {
    var t := Apply(cfg, s, step);
    forall p | 0 <= p < |t.managers| && p != step.p && t.managers[p].HasLease()
      ensures t.managers[p].row.owner < s.drawn
      ensures s.clock < t.managers[p].row.expiresAt ==> t.lease == Some(t.managers[p].row)
    {
      assert t.managers[p] == s.managers[p];
    }
  }

  lemma {:induction false} LeaseInvRun(cfg: Config, s: State, steps: seq<Step>)
    requires Initial(s) && Run(cfg, s, steps).Some?
    ensures LeaseInv(Run(cfg, s, steps).value)
    decreases |steps|
  {
    if steps != [] {
      var before := steps[..|steps| - 1];
      LeaseInvRun(cfg, s, before);
      LeaseInvStep(cfg, Run(cfg, s, before).value, steps[|steps| - 1]);
    }
  }

  /** In every run, at most one manager holds an unexpired lease at any time. */
  lemma OneUnexpiredHolder(cfg: Config, s: State, steps: seq<Step>, p: nat, q: nat)
    requires Initial(s) && Run(cfg, s, steps).Some?
    requires var t := Run(cfg, s, steps).value;
             && p < |t.managers| && t.managers[p].HasLease() && t.clock < t.managers[p].row.expiresAt
             && q < |t.managers| && t.managers[q].HasLease() && t.clock < t.managers[q].row.expiresAt
    ensures p == q
  {
    LeaseInvRun(cfg, s, steps);
  }

  /**
   * In every run, including ones with expiry and takeover, no step of another manager (a stale
   * owner's release in particular) removes or replaces the lease of an unexpired holder.
   */
  lemma HolderKeepsLease(cfg: Config, s: State, steps: seq<Step>, step: Step, q: nat)
    requires Initial(s) && Run(cfg, s, steps + [step]).Some?
    requires Run(cfg, s, steps).Some?
    requires var t := Run(cfg, s, steps).value;
             q < |t.managers| && t.managers[q].HasLease() && t.clock < t.managers[q].row.expiresAt
    requires step.Tick? || step.p != q
    ensures Run(cfg, s, steps + [step]).value.lease == Some(Run(cfg, s, steps).value.managers[q].row)
  {
    LeaseInvRun(cfg, s, steps);
    assert (steps + [step])[..|steps|] == steps;
  }

  // ---------------------------------------------------------------- the grant, in every run

  /** Bundles a manager carries. */
  predicate Carries(pc: Pc, b: Bundle) {
    match pc
    case Loaded(o, _) => b == o
    case Denied(o, _) => b == o
    case Held(o, _, _) => b == o
    case Sending(c, _, _) => b == c
    case Received(c, _, _, _) => b == c
    case Saving(r, _, _) => b == r
    case _ => false
  }

  /** The store, and everything the managers carry, is loadable and within the original grant. */
  ghost predicate GrantInv(grant: Bundle, s: State) {
    && InGrant(grant, s.store.bundle, s.clock)
    && (forall p, b :: 0 <= p < |s.managers| && Carries(s.managers[p], b) ==> InGrant(grant, b, s.clock))
  }

  ghost predicate InGrant(grant: Bundle, b: Bundle, now: int) {
    Loadable(b, now) && SameGrant(b, grant)
  }

  /** What a moving manager carries it carried before, read from the store or got by a refresh. */
  lemma MoverCarries(cfg: Config, s: State, step: Step, b: Bundle)
    requires Enabled(cfg, s, step) && !step.Tick?
    requires Carries(NextPc(cfg, s, step, s.managers[step.p]), b)
    ensures var pc := s.managers[step.p];
            || b == s.store.bundle
            || Carries(pc, b)
            || (pc.Received? && step.Validate? && step.now <= s.clock && Refreshed(pc.current, pc.reply, step.now) == Success(b))
  {
  }

  lemma InGrantLater(grant: Bundle, b: Bundle, now: int, later: int)
    requires InGrant(grant, b, now) && now <= later
    ensures InGrant(grant, b, later)
  {
  }

  lemma GrantInvAt(grant: Bundle, s: State, p: nat, b: Bundle)
    requires GrantInv(grant, s) && p < |s.managers| && Carries(s.managers[p], b)
    ensures InGrant(grant, b, s.clock)
  {
  }

  lemma CarriedInGrant(cfg: Config, grant: Bundle, s: State, step: Step, b: Bundle)
    requires GrantInv(grant, s) && Enabled(cfg, s, step) && !step.Tick?
    requires Carries(NextPc(cfg, s, step, s.managers[step.p]), b)
    ensures InGrant(grant, b, s.clock)
  {
    var pc := s.managers[step.p];
    MoverCarries(cfg, s, step, b);
    if Carries(pc, b) {
      GrantInvAt(grant, s, step.p, b);
    } else if b != s.store.bundle {
      GrantInvAt(grant, s, step.p, pc.current);
      RefreshKeepsGrant(pc.current, pc.reply, s.clock, step.now, s.clock);
    }
  }

  lemma StoredInGrant(cfg: Config, grant: Bundle, s: State, step: Step)
    requires GrantInv(grant, s) && Enabled(cfg, s, step) && !step.Tick?
    ensures InGrant(grant, Apply(cfg, s, step).store.bundle, s.clock)
    ensures Apply(cfg, s, step).clock == s.clock
  {
    var pc := s.managers[step.p];
    if step.Save? {
      GrantInvAt(grant, s, step.p, pc.refreshed);
    }
  }

  lemma GrantInvStep(cfg: Config, grant: Bundle, s: State, step: Step)
    requires GrantInv(grant, s) && Enabled(cfg, s, step)
    ensures GrantInv(grant, Apply(cfg, s, step))
  {
    var t := Apply(cfg, s, step);
    if step.Tick? {
      InGrantLater(grant, s.store.bundle, s.clock, t.clock);
    } else {
      StoredInGrant(cfg, grant, s, step);
    }
    forall p, b | 0 <= p < |t.managers| && Carries(t.managers[p], b)
      ensures InGrant(grant, b, t.clock)
    {
      if step.Tick? {
        GrantInvAt(grant, s, p, b);
        InGrantLater(grant, b, s.clock, t.clock);
      } else if p == step.p {
        CarriedInGrant(cfg, grant, s, step, b);
      } else {
        GrantInvAt(grant, s, p, b);
      }
    }
  }

  /**
   * Along every run from a valid stored bundle, whatever the server replies and whatever goes
   * wrong, the stored bundle stays loadable, read-only, and of the same endpoint, client and resource.
   */
  lemma {:induction false} StoreStaysInGrant(cfg: Config, s: State, steps: seq<Step>)
    requires Initial(s) && Run(cfg, s, steps).Some?
    ensures GrantInv(s.store.bundle, Run(cfg, s, steps).value)
    decreases |steps|
  {
    if steps != [] {
      var before := steps[..|steps| - 1];
      StoreStaysInGrant(cfg, s, before);
      GrantInvStep(cfg, s.store.bundle, Run(cfg, s, before).value, steps[|steps| - 1]);
    }
  }

  // ---------------------------------------------------------------- the token, in calm runs

  /** The refresh token a manager in flight is about to store. */
  function Pending(pc: Pc): string
    requires pc.InFlight()
  {
    if pc.Saving? then pc.refreshed.refreshToken else Issued(pc.current.refreshToken, pc.reply)
  }

  predicate Ascending(versions: seq<nat>) {
    forall i, j :: 0 <= i < j < |versions| ==> versions[i] < versions[j]
  }

  ghost predicate SomeInFlight(s: State) {
    exists p :: 0 <= p < |s.managers| && s.managers[p].InFlight()
  }

  /**
   * A sender sends the stored bundle; the server's latest token is in flight, or else it is the
   * stored one and no exchange of the stored version has been honoured.
   */
  ghost predicate TokenInv(s: State) {
    && Ascending(s.exchanged)
    && (forall v :: v in s.exchanged ==> v <= s.store.version)
    && (forall p :: 0 <= p < |s.managers| && s.managers[p].Sending? ==>
          s.managers[p].current == s.store.bundle && s.managers[p].version == s.store.version)
    && (forall p :: 0 <= p < |s.managers| && s.managers[p].InFlight() ==> Pending(s.managers[p]) == s.latest)
    && (!SomeInFlight(s) ==>
          s.store.bundle.refreshToken == s.latest && forall v :: v in s.exchanged ==> v < s.store.version)
  }

  ghost predicate OneCritical(s: State) {
    forall p, q ::
      (&& 0 <= p < |s.managers| && s.managers[p].Critical()
       && 0 <= q < |s.managers| && s.managers[q].Critical())
      ==> p == q
  }

  lemma CalmMeansExclusive(s: State)
    requires LeaseInv(s) && !Overrun(s)
    ensures OneCritical(s)
  {
  }

  lemma TokenInvSave(cfg: Config, s: State, step: Step)
    requires TokenInv(s) && OneCritical(s) && Enabled(cfg, s, step) && step.Save? && !FailsSave(step)
    ensures TokenInv(Apply(cfg, s, step))
  {
    var t := Apply(cfg, s, step);
    assert s.managers[step.p].InFlight() && s.managers[step.p].Critical();
    forall q | 0 <= q < |t.managers|
      ensures !t.managers[q].Critical()
    {
      assert q != step.p ==> t.managers[q] == s.managers[q];
    }
  }

  lemma TokenInvExchange(cfg: Config, s: State, step: Step)
    requires TokenInv(s) && OneCritical(s) && Enabled(cfg, s, step) && step.Exchange? && !LosesReply(s, step)
    ensures TokenInv(Apply(cfg, s, step))
  {
    var t := Apply(cfg, s, step);
    var pc := s.managers[step.p];
    assert pc.Critical();
    assert !SomeInFlight(s);
    forall q | 0 <= q < |t.managers| && q != step.p
      ensures !t.managers[q].Critical()
    {
      assert t.managers[q] == s.managers[q];
    }
    if step.answer.Honoured? {
      assert t.managers[step.p].InFlight();
      AscendingSnoc(s.exchanged, s.store.version);
    } else {
      assert !SomeInFlight(t);
    }
  }

  lemma AscendingSnoc(versions: seq<nat>, v: nat)
    requires Ascending(versions) && forall w :: w in versions ==> w < v
    ensures Ascending(versions + [v])
  {
    forall i | 0 <= i < |versions|
      ensures versions[i] < v
    {
      assert versions[i] in versions;
    }
  }

  /** Validation passes on the token it was given, and every other step leaves store, server and flights alone. */
  lemma TokenInvQuiet(cfg: Config, s: State, step: Step)
    requires TokenInv(s) && Enabled(cfg, s, step)
    requires !step.Tick? && !step.Save? && !step.Exchange? && !LosesReply(s, step)
    ensures TokenInv(Apply(cfg, s, step))
  {
    var t := Apply(cfg, s, step);
    var pc, next := s.managers[step.p], NextPc(cfg, s, step, s.managers[step.p]);
    MoverQuiet(cfg, s, step);
    QuietEffect(cfg, s, step);
    forall q | 0 <= q < |t.managers| && q != step.p
      ensures t.managers[q] == s.managers[q]
    {
    }
    if SomeInFlight(s) {
      var q :| 0 <= q < |s.managers| && s.managers[q].InFlight();
      assert t.managers[q].InFlight();
    }
  }

  lemma QuietEffect(cfg: Config, s: State, step: Step)
    requires Enabled(cfg, s, step) && !step.Tick? && !step.Save? && !step.Exchange?
    ensures var t := Apply(cfg, s, step);
            && t.store == s.store && t.latest == s.latest && t.exchanged == s.exchanged
            && t.managers == s.managers[step.p := NextPc(cfg, s, step, s.managers[step.p])]
  {
  }

  lemma MoverQuiet(cfg: Config, s: State, step: Step)
    requires Enabled(cfg, s, step)
    requires !step.Tick? && !step.Save? && !step.Exchange? && !LosesReply(s, step)
    ensures var pc, next := s.managers[step.p], NextPc(cfg, s, step, s.managers[step.p]);
            && (next.InFlight() <==> pc.InFlight())
            && (next.InFlight() ==> Pending(next) == Pending(pc))
            && (next.Sending? ==> next.current == s.store.bundle && next.version == s.store.version)
  {
  }

  lemma TokenInvStep(cfg: Config, s: State, step: Step)
    requires TokenInv(s) && OneCritical(s) && Enabled(cfg, s, step)
    requires !LosesReply(s, step) && !FailsSave(step)
    ensures TokenInv(Apply(cfg, s, step))
  {
    if step.Save? {
      TokenInvSave(cfg, s, step);
    } else if step.Exchange? {
      TokenInvExchange(cfg, s, step);
    } else if step.Tick? {
      assert SomeInFlight(Apply(cfg, s, step)) <==> SomeInFlight(s);
    } else {
      TokenInvQuiet(cfg, s, step);
    }
  }

  lemma {:induction false} TokenInvRun(cfg: Config, s: State, steps: seq<Step>)
    requires Initial(s) && Run(cfg, s, steps).Some? && Within(cfg, s, steps, NONE)
    ensures TokenInv(Run(cfg, s, steps).value)
    decreases |steps|
  {
    if steps != [] {
      var before := steps[..|steps| - 1];
      var t := Run(cfg, s, before).value;
      TokenInvRun(cfg, s, before);
      LeaseInvRun(cfg, s, before);
      CalmMeansExclusive(t) by { assert !Overrun(t); }
      TokenInvStep(cfg, t, steps[|steps| - 1]);
    }
  }

  /**
   * In every interleaving without overrun, lost reply or failed save, the refresh token about to be
   * sent is the one the server issued last, and the store version it comes from has never been
   * honoured before.
   */
  lemma FreshTokenSent(cfg: Config, s: State, steps: seq<Step>, p: nat)
    requires Initial(s) && Run(cfg, s, steps).Some? && Within(cfg, s, steps, NONE)
    requires var t := Run(cfg, s, steps).value; p < |t.managers| && t.managers[p].Sending?
    ensures var t := Run(cfg, s, steps).value;
            && t.managers[p].current.refreshToken == t.latest
            && t.managers[p].version !in t.exchanged
  {
    var t := Run(cfg, s, steps).value;
    TokenInvRun(cfg, s, steps);
    LeaseInvRun(cfg, s, steps);
    CalmMeansExclusive(t);
    assert t.managers[p].Critical();
    assert !SomeInFlight(t);
  }

  /** In such a run each stored version is honoured at most once. */
  lemma ExchangedOnce(cfg: Config, s: State, steps: seq<Step>)
    requires Initial(s) && Run(cfg, s, steps).Some? && Within(cfg, s, steps, NONE)
    ensures var versions := Run(cfg, s, steps).value.exchanged;
            forall i, j :: 0 <= i < j < |versions| ==> versions[i] != versions[j]
  {
    TokenInvRun(cfg, s, steps);
  }

  // ---------------------------------------------------------------- each hazard alone breaks it

  /** The run stays within the allowed hazards and ends in `t`. */
  ghost predicate Reaches(cfg: Config, s: State, steps: seq<Step>, allowed: Hazards, t: State) {
    Run(cfg, s, steps) == Some(t) && Within(cfg, s, steps, allowed)
  }

  lemma Extend(cfg: Config, s: State, steps: seq<Step>, step: Step, allowed: Hazards, t: State) returns (longer: seq<Step>)
    requires Reaches(cfg, s, steps, allowed, t) && Enabled(cfg, t, step)
    requires allowed.overrun || !Overrun(Apply(cfg, t, step))
    requires allowed.lostReply || !LosesReply(t, step)
    requires allowed.failedSave || !FailsSave(step)
    ensures Reaches(cfg, s, longer, allowed, Apply(cfg, t, step))
  {
    longer := steps + [step];
    assert longer[..|longer| - 1] == steps;
  }

  /** Nobody but `p` is inside a critical section. */
  ghost predicate OthersCalm(s: State, p: nat) {
    forall q :: 0 <= q < |s.managers| && q != p ==> !s.managers[q].Critical()
  }

  function Place(s: State, p: nat, pc: Pc): State
    requires p < |s.managers|
  {
    s.(managers := s.managers[p := pc])
  }

  lemma PlaceIsCalm(s: State, p: nat, pc: Pc)
    requires p < |s.managers| && OthersCalm(s, p)
    requires pc.Critical() ==> s.clock < pc.row.expiresAt
    ensures !Overrun(Place(s, p, pc)) && OthersCalm(Place(s, p, pc), p)
  {
  }

  /** Manager `p` takes one step, the others being outside their critical sections unless overrun is allowed. */
  lemma StepAlone(cfg: Config, s: State, steps: seq<Step>, allowed: Hazards, t: State, step: Step, u: State, pc: Pc)
    returns (longer: seq<Step>)
    requires Reaches(cfg, s, steps, allowed, t) && !step.Tick? && Enabled(cfg, t, step)
    requires u.managers == t.managers && Apply(cfg, t, step) == Place(u, step.p, pc)
    requires allowed.overrun || (OthersCalm(t, step.p) && (pc.Critical() ==> u.clock < pc.row.expiresAt))
    requires allowed.lostReply || !LosesReply(t, step)
    requires allowed.failedSave || !FailsSave(step)
    ensures Reaches(cfg, s, longer, allowed, Place(u, step.p, pc))
    ensures allowed.overrun || OthersCalm(Place(u, step.p, pc), step.p)
  {
    if !allowed.overrun {
      PlaceIsCalm(u, step.p, pc);
    }
    longer := Extend(cfg, s, steps, step, allowed, t);
  }

  /** The lease manager `p` takes out at `t`, and the bundle it then sends. */
  function RowAt(cfg: Config, t: State): Row {
    Row(t.drawn, t.clock + cfg.leaseSeconds)
  }

  /** The state after manager `p` has taken the lease. */
  function Leased(cfg: Config, t: State, p: nat): State
    requires p < |t.managers|
  {
    Place(t.(drawn := t.drawn + 1, lease := Some(RowAt(cfg, t))), p, Held(t.store.bundle, true, RowAt(cfg, t)))
  }

  /** The state after manager `p` has walked from idle to the point of sending. */
  function Walked(cfg: Config, t: State, p: nat): State
    requires p < |t.managers|
  {
    Place(t.(drawn := t.drawn + 1, lease := Some(RowAt(cfg, t))), p,
          Sending(t.store.bundle, t.store.version, RowAt(cfg, t)))
  }

  lemma WalkToLease(cfg: Config, s: State, steps: seq<Step>, p: nat, allowed: Hazards, t: State)
    returns (longer: seq<Step>)
    requires 0 < cfg.leaseSeconds && Reaches(cfg, s, steps, allowed, t)
    requires p < |t.managers| && t.managers[p].Idle? && LeaseFree(t.lease, t.clock) && Loadable(t.store.bundle, t.clock)
    requires allowed.overrun || OthersCalm(t, p)
    ensures Reaches(cfg, s, longer, allowed, Leased(cfg, t, p))
    ensures allowed.overrun || OthersCalm(Leased(cfg, t, p), p)
  {
    longer := StepAlone(cfg, s, steps, allowed, t, Load(p, true), t, Loaded(t.store.bundle, true));
    var loaded := Place(t, p, Loaded(t.store.bundle, true));
    var granted := loaded.(drawn := t.drawn + 1, lease := Some(RowAt(cfg, t)));
    var held := Held(t.store.bundle, true, RowAt(cfg, t));
    longer := StepAlone(cfg, s, longer, allowed, loaded, Acquire(p, t.clock, Granted), granted, held);
    assert Place(granted, p, held) == Leased(cfg, t, p);
  }

  lemma WalkToSending(cfg: Config, s: State, steps: seq<Step>, p: nat, allowed: Hazards, t: State)
    returns (longer: seq<Step>)
    requires 0 < cfg.leaseSeconds && Reaches(cfg, s, steps, allowed, t)
    requires p < |t.managers| && t.managers[p].Idle? && LeaseFree(t.lease, t.clock) && Loadable(t.store.bundle, t.clock)
    requires allowed.overrun || OthersCalm(t, p)
    ensures Reaches(cfg, s, longer, allowed, Walked(cfg, t, p))
    ensures allowed.overrun || OthersCalm(Walked(cfg, t, p), p)
  {
    longer := WalkToLease(cfg, s, steps, p, allowed, t);
    var held := Leased(cfg, t, p);
    var sending := Sending(t.store.bundle, t.store.version, RowAt(cfg, t));
    longer := StepAlone(cfg, s, longer, allowed, held, Reread(p, false), held, sending);
    assert Place(held, p, sending) == Walked(cfg, t, p);
  }

  lemma InitiallyCalm(cfg: Config, s: State, allowed: Hazards)
    requires Initial(s)
    ensures Reaches(cfg, s, [], allowed, s)
    ensures forall p :: OthersCalm(s, p)
  {
  }

  /** Manager 0 gives its lease back and is idle again. */
  lemma GiveBack(cfg: Config, s: State, steps: seq<Step>, allowed: Hazards, t: State) returns (longer: seq<Step>)
    requires Reaches(cfg, s, steps, allowed, t) && OthersCalm(t, 0)
    requires |t.managers| > 0 && t.managers[0].Releasing? && t.lease == Some(t.managers[0].row)
    ensures Reaches(cfg, s, longer, allowed, Place(t.(lease := None), 0, Idle))
    ensures OthersCalm(Place(t.(lease := None), 0, Idle), 0)
  {
    PlaceIsCalm(t.(lease := None), 0, Idle);
    longer := StepAlone(cfg, s, steps, allowed, t, Release(0, true), t.(lease := None), Idle);
  }

  /** What the server and the store hold after manager 0 was honoured and its result was dropped. */
  function Dropped(t: State, latest: string): State
    requires |t.managers| > 0 && t.managers[0].Sending?
  {
    Place(t.(latest := latest, exchanged := t.exchanged + [t.managers[0].version], lease := None), 0, Idle)
  }

  lemma LoseReply(cfg: Config, s: State, steps: seq<Step>, rotated: string, allowed: Hazards, t: State)
    returns (longer: seq<Step>)
    requires Reaches(cfg, s, steps, allowed, t) && allowed.lostReply && OthersCalm(t, 0)
    requires |t.managers| > 0 && t.managers[0].Sending? && t.lease == Some(t.managers[0].row)
    ensures Reaches(cfg, s, longer, allowed, Dropped(t, rotated)) && OthersCalm(Dropped(t, rotated), 0)
  {
    var row := t.managers[0].row;
    var lost := t.(latest := rotated, exchanged := t.exchanged + [t.managers[0].version]);
    PlaceIsCalm(lost, 0, Releasing(row));
    longer := StepAlone(cfg, s, steps, allowed, t, Exchange(0, HonouredLost(Some(rotated))), lost, Releasing(row));
    lost := Place(lost, 0, Releasing(row));
    longer := GiveBack(cfg, s, longer, allowed, lost);
    assert Place(lost.(lease := None), 0, Idle) == Dropped(t, rotated);
  }

  /** A lost reply alone lets a stale token be sent. */
  lemma LostReplyIsUnsafe(cfg: Config, s: State, rotated: string) returns (steps: seq<Step>)
    requires 0 < cfg.leaseSeconds && Initial(s) && s.lease.None? && s.managers != [] && rotated != s.latest
    ensures Run(cfg, s, steps).Some? && Within(cfg, s, steps, NONE.(lostReply := true))
    ensures SendsStaleToken(Run(cfg, s, steps).value, 0)
  {
    var allowed := NONE.(lostReply := true);
    InitiallyCalm(cfg, s, allowed);
    steps := WalkToSending(cfg, s, [], 0, allowed, s);
    steps := LoseReply(cfg, s, steps, rotated, allowed, Walked(cfg, s, 0));
    steps := WalkToSending(cfg, s, steps, 0, allowed, Dropped(Walked(cfg, s, 0), rotated));
  }

  /** Manager 0, about to send, is honoured and validates the reply. */
  lemma ReceiveReply(cfg: Config, s: State, steps: seq<Step>, reply: Reply, allowed: Hazards, t: State)
    returns (longer: seq<Step>, u: State)
    requires Reaches(cfg, s, steps, allowed, t) && OthersCalm(t, 0)
    requires |t.managers| > 0 && t.managers[0].Sending? && t.clock < t.managers[0].row.expiresAt
    requires Refreshed(t.managers[0].current, reply, t.clock).Success?
    ensures Reaches(cfg, s, longer, allowed, u) && OthersCalm(u, 0)
    ensures var pc := t.managers[0];
            u == Place(t.(latest := Issued(t.latest, reply), exchanged := t.exchanged + [pc.version]), 0,
                       Saving(Refreshed(pc.current, reply, t.clock).value, pc.version, pc.row))
  {
    var pc := t.managers[0];
    var honoured := t.(latest := Issued(t.latest, reply), exchanged := t.exchanged + [pc.version]);
    var received := Received(pc.current, pc.version, reply, pc.row);
    PlaceIsCalm(honoured, 0, received);
    longer := StepAlone(cfg, s, steps, allowed, t, Exchange(0, Honoured(reply)), honoured, received);
    var saving := Saving(Refreshed(pc.current, reply, t.clock).value, pc.version, pc.row);
    u := Place(honoured, 0, received);
    PlaceIsCalm(u, 0, saving);
    longer := StepAlone(cfg, s, longer, allowed, u, Validate(0, t.clock), u, saving);
    u := Place(u, 0, saving);
  }

  lemma FailSave(cfg: Config, s: State, steps: seq<Step>, allowed: Hazards, t: State)
    returns (longer: seq<Step>)
    requires Reaches(cfg, s, steps, allowed, t) && allowed.failedSave && OthersCalm(t, 0)
    requires |t.managers| > 0 && t.managers[0].Saving? && t.lease == Some(t.managers[0].row)
    ensures Reaches(cfg, s, longer, allowed, Place(t.(lease := None), 0, Idle))
    ensures OthersCalm(Place(t.(lease := None), 0, Idle), 0)
  {
    var releasing := Releasing(t.managers[0].row);
    PlaceIsCalm(t, 0, releasing);
    longer := StepAlone(cfg, s, steps, allowed, t, Save(0, NotLanded), t, releasing);
    longer := GiveBack(cfg, s, longer, allowed, Place(t, 0, releasing));
    assert Place(Place(t, 0, releasing).(lease := None), 0, Idle) == Place(t.(lease := None), 0, Idle);
  }

  /** A failed save alone lets a stale token be sent. */
  lemma FailedSaveIsUnsafe(cfg: Config, s: State, reply: Reply) returns (steps: seq<Step>)
    requires 0 < cfg.leaseSeconds && Initial(s) && s.lease.None? && s.managers != []
    requires Refreshed(s.store.bundle, reply, s.clock).Success?
    requires reply.refreshToken.Text? && reply.refreshToken.text != s.latest
    ensures Run(cfg, s, steps).Some? && Within(cfg, s, steps, NONE.(failedSave := true))
    ensures SendsStaleToken(Run(cfg, s, steps).value, 0)
  {
    var allowed := NONE.(failedSave := true);
    InitiallyCalm(cfg, s, allowed);
    steps := WalkToSending(cfg, s, [], 0, allowed, s);
    var t;
    steps, t := ReceiveReply(cfg, s, steps, reply, allowed, Walked(cfg, s, 0));
    steps := FailSave(cfg, s, steps, allowed, t);
    steps := WalkToSending(cfg, s, steps, 0, allowed, Place(t.(lease := None), 0, Idle));
  }

  /** A lease that runs out between re-reading and sending, with two managers, lets a stale token be sent. */
  lemma OverrunIsUnsafe(cfg: Config, s: State, reply: Reply) returns (steps: seq<Step>)
    requires 0 < cfg.leaseSeconds && Initial(s) && s.lease.None? && |s.managers| >= 2
    requires reply.refreshToken.Text? && reply.refreshToken.text != s.latest
    ensures Run(cfg, s, steps).Some? && Within(cfg, s, steps, NONE.(overrun := true))
    ensures SendsStaleToken(Run(cfg, s, steps).value, 0)
  {
    var allowed := NONE.(overrun := true);
    InitiallyCalm(cfg, s, allowed);
    steps := WalkToSending(cfg, s, [], 0, allowed, s);
    var t := Walked(cfg, s, 0);
    var late := s.clock + cfg.leaseSeconds;
    steps := Extend(cfg, s, steps, Tick(late), allowed, t);
    t := t.(clock := late);
    steps := WalkToSending(cfg, s, steps, 1, allowed, t);
    steps := Extend(cfg, s, steps, Exchange(1, Honoured(reply)), allowed, Walked(cfg, t, 1));
  }

  /** A manager can die anywhere in its call, and leaves the lease, the store and the server as they are. */
  lemma DiesAnywhere(cfg: Config, s: State, steps: seq<Step>, p: nat)
    requires Run(cfg, s, steps).Some? && p < |Run(cfg, s, steps).value.managers| && !Run(cfg, s, steps).value.managers[p].Idle?
    ensures var t := Run(cfg, s, steps).value;
            Run(cfg, s, steps + [Die(p)]) == Some(t.(managers := t.managers[p := Idle]))
  {
    var longer := steps + [Die(p)];
    assert longer[..|longer| - 1] == steps;
  }
}
