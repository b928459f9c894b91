/** Which retrieved clause, if any, sets the applicable rate (src/core/applicable_rule.py). */
module ApplicableRule {
  import opened Wrappers
  import opened Sorting
  import opened Text

  /** A decimal number: `coefficient` times ten to the `exponent`, or the invalid number. */
  datatype Decimal = Finite(coefficient: int, exponent: int) | NaN

  datatype Candidate = Candidate(
    clause: string, publicRef: string, clauseRef: string, rank: int, distance: real, text: string, excerpt: string,
    rate: Option<Decimal>, currency: Option<string>, rateUnit: Option<string>, effectiveFrom: Option<int>,
    effectiveTo: Option<int>, scope: string, equipment: Option<string>, route: Option<string>,
    service: Option<string>, verified: bool, locator: string, superseded: bool)

  datatype Query = Query(
    dates: seq<int>, currency: string, rateUnit: string, scope: string, ratePhrase: string,
    equipment: Option<string>, route: Option<string>)

  /** The text normalisers. */
  datatype Texts = Texts(normalize: string -> string, upper: string -> string, normalUnit: string -> string)

  datatype Validator = SourceVersion | ExactText | ExactRate | Currency | RateUnit | EffectiveDate | ScopeMatch
    | Supersession | BoundarySemantics

  const VALIDATORS: seq<Validator> :=
    [SourceVersion, ExactText, ExactRate, Currency, RateUnit, EffectiveDate, ScopeMatch, Supersession, BoundarySemantics]

  /** The verdict on one candidate; a refusal names the first validator that failed. */
  datatype Validation = Validation(
    candidate: Candidate, accepted: bool, results: map<Validator, bool>, refusal: Option<Validator>, rate: Option<int>)

  // The rate in minor units

  function Pow10(n: nat): (p: int)
    ensures p > 0
  {
    if n == 0 then 1 else 10 * Pow10(n - 1)
  }

  /** `_rate_minor`. */
  function RateMinor(amount: Option<Decimal>): Option<int> {
    if amount.None? || amount.value.NaN? then None
    else if amount.value.coefficient < 0 || amount.value.exponent < -2 then None
    else Some(amount.value.coefficient * Pow10(amount.value.exponent + 2))
  }

  /** The number a finite decimal stands for. */
  function ValueOf(d: Decimal): real
    requires d.Finite?
  {
    if d.exponent >= 0 then d.coefficient as real * Pow10(d.exponent) as real
    else d.coefficient as real / Pow10(-d.exponent) as real
  }

  /** A rate that converts is exactly a hundred times the decimal, and non-negative cent amounts always convert. */
  lemma RateMinorIsExact(d: Decimal)
    requires d.Finite?
    ensures RateMinor(Some(d)).Some? <==> d.coefficient >= 0 && d.exponent >= -2
    ensures RateMinor(Some(d)).Some? ==> RateMinor(Some(d)).value as real == 100.0 * ValueOf(d)
  {
    if d.exponent >= 0 {
      ScaleByHundred(d.coefficient, d.exponent);
    } else if d.exponent == -1 {
      assert Pow10(1) == 10 * Pow10(0) == 10;
      ScaleBack(d.coefficient, 10, 10);
    } else if d.exponent == -2 {
      assert Pow10(2) == 10 * Pow10(1) == 100;
      ScaleBack(d.coefficient, 1, 100);
    }
  }

  lemma ScaleBack(coefficient: int, up: int, down: int)
    requires down > 0 && up * down == 100
    ensures (coefficient * up) as real == 100.0 * (coefficient as real / down as real)
  {
    var x := coefficient as real / down as real;
    assert x * down as real == coefficient as real;
    assert (coefficient * up) as real == coefficient as real * up as real;
    assert x * down as real * up as real == x * (down as real * up as real);
    assert down as real * up as real == (up * down) as real;
  }

  lemma ScaleByHundred(coefficient: int, exponent: nat)
    ensures (coefficient * Pow10(exponent + 2)) as real == 100.0 * (coefficient as real * Pow10(exponent) as real)
  {
    var p := Pow10(exponent);
    assert Pow10(exponent + 1) == 10 * p && Pow10(exponent + 2) == 100 * p;
    assert coefficient * (100 * p) == 100 * (coefficient * p);
  }

  // One candidate

  /** `_scope_matches`: an absent or empty query value asks for nothing, an absent candidate value fits anything. */
  predicate Fits(asked: Option<string>, has: Option<string>) {
    asked.None? || asked.value == "" || has.None? || has == asked
  }

  predicate ScopeMatches(c: Candidate, q: Query) {
    c.scope == q.scope && Fits(q.equipment, c.equipment) && Fits(q.route, c.route)
  }

  predicate InForce(c: Candidate, date: int) {
    c.effectiveFrom.Some? && c.effectiveFrom.value <= date && (c.effectiveTo.Some? ==> date <= c.effectiveTo.value)
  }

  /** In force on every charged date. */
  predicate Covers(c: Candidate, dates: seq<int>) {
    c.effectiveFrom.Some? && forall i :: 0 <= i < |dates| ==> InForce(c, dates[i])
  }

  /** `_covers_all_dates`. */
  method CoversAllDates(c: Candidate, dates: seq<int>) returns (covers: bool)
    ensures covers <==> Covers(c, dates)
  {
    if c.effectiveFrom.None? {
      return false;
    }
    for i := 0 to |dates|
      invariant forall j :: 0 <= j < i ==> InForce(c, dates[j])
    {
      if dates[i] < c.effectiveFrom.value {
        return false;
      }
      if c.effectiveTo.Some? && dates[i] > c.effectiveTo.value {
        return false;
      }
    }
    return true;
  }

  function OrEmpty(text: Option<string>): string {
    if text.Some? then text.value else ""
  }

  predicate SameUnit(t: Texts, c: Candidate, q: Query) {
    t.normalUnit(OrEmpty(c.rateUnit)) == t.normalUnit(q.rateUnit)
  }

  predicate Passed(t: Texts, c: Candidate, q: Query, v: Validator) {
    match v
    case SourceVersion => c.verified
    case ExactText => Occurs(t.normalize(q.ratePhrase), t.normalize(c.text))
    case ExactRate => RateMinor(c.rate).Some?
    case Currency => t.upper(OrEmpty(c.currency)) == t.upper(q.currency)
    case RateUnit => SameUnit(t, c, q)
    case EffectiveDate => Covers(c, q.dates)
    case ScopeMatch => ScopeMatches(c, q)
    case Supersession => !c.superseded
    case BoundarySemantics => c.effectiveFrom.Some? && SameUnit(t, c, q)
  }

  /** What each validator asks, in terms of the candidate's and the query's own fields. */
  ghost predicate Meets(t: Texts, c: Candidate, q: Query, v: Validator) {
    match v
    case SourceVersion => c.verified
    case ExactText => Occurs(t.normalize(q.ratePhrase), t.normalize(c.text))
    case ExactRate => c.rate.Some? && c.rate.value.Finite? && c.rate.value.coefficient >= 0 && c.rate.value.exponent >= -2
    case Currency => t.upper(if c.currency.Some? then c.currency.value else "") == t.upper(q.currency)
    case RateUnit => t.normalUnit(if c.rateUnit.Some? then c.rateUnit.value else "") == t.normalUnit(q.rateUnit)
    case EffectiveDate =>
      && c.effectiveFrom.Some?
      && forall date :: date in q.dates ==>
           c.effectiveFrom.value <= date && (c.effectiveTo.Some? ==> date <= c.effectiveTo.value)
    case ScopeMatch =>
      && c.scope == q.scope
      && (q.equipment.Some? && q.equipment.value != "" && c.equipment.Some? ==> c.equipment.value == q.equipment.value)
      && (q.route.Some? && q.route.value != "" && c.route.Some? ==> c.route.value == q.route.value)
    case Supersession => !c.superseded
    case BoundarySemantics =>
      && c.effectiveFrom.Some?
      && t.normalUnit(if c.rateUnit.Some? then c.rateUnit.value else "") == t.normalUnit(q.rateUnit)
  }

  lemma PassedExactly(t: Texts, c: Candidate, q: Query)
    ensures forall v :: Passed(t, c, q, v) <==> Meets(t, c, q, v)
  {
    if Meets(t, c, q, EffectiveDate) {
      forall i | 0 <= i < |q.dates|
        ensures InForce(c, q.dates[i])
      {
        assert q.dates[i] in q.dates;
      }
    }
    if Covers(c, q.dates) {
      forall date | date in q.dates
        ensures c.effectiveFrom.value <= date && (c.effectiveTo.Some? ==> date <= c.effectiveTo.value)
      {
        var i :| 0 <= i < |q.dates| && q.dates[i] == date;
        assert InForce(c, q.dates[i]);
      }
    }
    assert Covers(c, q.dates) <==> Meets(t, c, q, EffectiveDate);
  }

  function FirstFailed(results: map<Validator, bool>, validators: seq<Validator>): Option<Validator>
    requires forall v :: v in validators ==> v in results
  {
    if validators == [] then None
    else if !results[validators[0]] then Some(validators[0])
    else FirstFailed(results, validators[1..])
  }

  ghost predicate Records(t: Texts, c: Candidate, q: Query, results: map<Validator, bool>) {
    forall v :: v in results && results[v] == Passed(t, c, q, v)
  }

  /** Accepted with its rate, or refused over the first failed validator in the published order. */
  ghost predicate IsValidation(t: Texts, c: Candidate, q: Query, v: Validation) {
    && v.candidate == c
    && v.rate == RateMinor(c.rate)
    && Records(t, c, q, v.results)
    && v.refusal == FirstFailed(v.results, VALIDATORS)
    && v.accepted == v.refusal.None?
  }

  ghost predicate RecordsSome(t: Texts, c: Candidate, q: Query, results: map<Validator, bool>) {
    forall v :: v in results ==> results[v] == Passed(t, c, q, v)
  }

  lemma NoOtherValidator(v: Validator)
    ensures v in {SourceVersion, ExactText, ExactRate, Currency, RateUnit, EffectiveDate, ScopeMatch, Supersession, BoundarySemantics}
  {
    match v
    case SourceVersion =>
    case ExactText =>
    case ExactRate =>
    case Currency =>
    case RateUnit =>
    case EffectiveDate =>
    case ScopeMatch =>
    case Supersession =>
    case BoundarySemantics =>
  }

  /** The validators of the clause's source and text, in the order they are run. */
  method RunSourceValidators(t: Texts, c: Candidate, q: Query) returns (results: map<Validator, bool>)
    ensures RecordsSome(t, c, q, results)
    ensures results.Keys == {SourceVersion, Supersession, ExactText}
  {
    results := map[SourceVersion := c.verified];
    results := results[Supersession := !c.superseded];
    results := results[ExactText := Occurs(t.normalize(q.ratePhrase), t.normalize(c.text))];
  }

  /** Then those of its rate. */
  method RunRateValidators(t: Texts, c: Candidate, q: Query, so: map<Validator, bool>) returns (results: map<Validator, bool>)
    requires RecordsSome(t, c, q, so)
    ensures RecordsSome(t, c, q, results)
    ensures results.Keys == so.Keys + {ExactRate, Currency, RateUnit}
  {
    results := so[ExactRate := RateMinor(c.rate).Some?];
    results := results[Currency := t.upper(OrEmpty(c.currency)) == t.upper(q.currency)];
    results := results[RateUnit := SameUnit(t, c, q)];
  }

  /** Then those of its dates and scope. */
  method RunContextValidators(t: Texts, c: Candidate, q: Query, so: map<Validator, bool>) returns (results: map<Validator, bool>)
    requires RecordsSome(t, c, q, so) && RateUnit in so
    ensures RecordsSome(t, c, q, results)
    ensures results.Keys == so.Keys + {EffectiveDate, ScopeMatch, BoundarySemantics}
  {
    var covers := CoversAllDates(c, q.dates);
    results := so[EffectiveDate := covers];
    results := results[ScopeMatch := ScopeMatches(c, q)];
    results := results[BoundarySemantics := c.effectiveFrom.Some? && so[RateUnit]];
  }

  /** All the validators, in the order they are run. */
  method RunValidators(t: Texts, c: Candidate, q: Query) returns (results: map<Validator, bool>)
    ensures Records(t, c, q, results)
    ensures forall v :: v in results && (results[v] <==> Meets(t, c, q, v))
  {
    PassedExactly(t, c, q);
    results := RunSourceValidators(t, c, q);
    results := RunRateValidators(t, c, q, results);
    results := RunContextValidators(t, c, q, results);
    forall v
      ensures v in results
    {
      NoOtherValidator(v);
    }
  }

  /** `validate_candidate`. */
  method ValidateCandidate(t: Texts, c: Candidate, q: Query) returns (v: Validation)
    ensures IsValidation(t, c, q, v)
    ensures v.accepted <==> Applicable(t, c, q)
    ensures v.accepted <==> forall rule :: Meets(t, c, q, rule)
    ensures v.accepted ==> v.rate.Some? && v.rate.value as real == 100.0 * ValueOf(c.rate.value)
  {
    var results := RunValidators(t, c, q);
    var failed := FirstFailed(results, VALIDATORS);
    v := Validation(c, failed.None?, results, failed, RateMinor(c.rate));
    AcceptedExactly(t, c, q, v);
    if v.accepted {
      RateMinorIsExact(c.rate.value);
    }
  }

  /** Every validator passes. Neither the rank nor the distance of the candidate is mentioned. */
  predicate Applicable(t: Texts, c: Candidate, q: Query) {
    && c.verified && !c.superseded
    && Occurs(t.normalize(q.ratePhrase), t.normalize(c.text))
    && RateMinor(c.rate).Some?
    && t.upper(OrEmpty(c.currency)) == t.upper(q.currency)
    && SameUnit(t, c, q)
    && Covers(c, q.dates)
    && ScopeMatches(c, q)
  }

  lemma ApplicableExactly(t: Texts, c: Candidate, q: Query)
    ensures Applicable(t, c, q) <==> forall rule :: Meets(t, c, q, rule)
  {
    PassedExactly(t, c, q);
    if forall rule :: Meets(t, c, q, rule) {
      assert Meets(t, c, q, SourceVersion) && Meets(t, c, q, ExactText) && Meets(t, c, q, ExactRate);
      assert Meets(t, c, q, Currency) && Meets(t, c, q, RateUnit) && Meets(t, c, q, EffectiveDate);
      assert Meets(t, c, q, ScopeMatch) && Meets(t, c, q, Supersession);
    }
  }

  lemma {:induction false} FirstFailedIsFirst(results: map<Validator, bool>, validators: seq<Validator>)
    requires forall v :: v in validators ==> v in results
    ensures FirstFailed(results, validators).None? <==> forall i :: 0 <= i < |validators| ==> results[validators[i]]
    ensures FirstFailed(results, validators).Some? ==>
              exists i :: 0 <= i < |validators| && FirstFailed(results, validators) == Some(validators[i])
                          && !results[validators[i]] && forall j :: 0 <= j < i ==> results[validators[j]]
  {
    if validators != [] && results[validators[0]] {
      FirstFailedIsFirst(results, validators[1..]);
      if FirstFailed(results, validators).Some? {
        var i :| 0 <= i < |validators| - 1 && FirstFailed(results, validators) == Some(validators[1..][i])
                 && !results[validators[1..][i]] && forall j :: 0 <= j < i ==> results[validators[1..][j]];
        assert validators[i + 1] == validators[1..][i];
        forall j | 0 <= j < i + 1
          ensures results[validators[j]]
        {
          assert j > 0 ==> validators[j] == validators[1..][j - 1];
        }
      }
    }
  }

  /** A candidate is accepted exactly when it is applicable, and a refusal names a validator that did fail. */
  lemma AcceptedExactly(t: Texts, c: Candidate, q: Query, v: Validation)
    requires IsValidation(t, c, q, v)
    ensures v.accepted <==> Applicable(t, c, q)
    ensures v.accepted <==> forall rule :: Meets(t, c, q, rule)
    ensures v.refusal.Some? ==> !Meets(t, c, q, v.refusal.value)
  {
    PassedExactly(t, c, q);
    ApplicableExactly(t, c, q);
    FirstFailedIsFirst(v.results, VALIDATORS);
    assert VALIDATORS[0] == SourceVersion && VALIDATORS[1] == ExactText && VALIDATORS[2] == ExactRate;
    assert VALIDATORS[3] == Currency && VALIDATORS[4] == RateUnit && VALIDATORS[5] == EffectiveDate;
    assert VALIDATORS[6] == ScopeMatch && VALIDATORS[7] == Supersession && VALIDATORS[8] == BoundarySemantics;
  }

  // The decision

  datatype RuleState = Verified | Refused | Conflicted

  datatype Decision = Decision(state: RuleState, accepted: Option<Validation>, validations: seq<Validation>)

  function Accepted(v: seq<Validation>): seq<Validation> {
    Filter((x: Validation) => x.accepted, v)
  }

  /** The first of the lowest rank, as `min` finds it. */
  function Best(accepted: seq<Validation>): Validation
    requires accepted != []
  {
    if |accepted| == 1 then accepted[0]
    else
      var rest := Best(accepted[1..]);
      if accepted[0].candidate.rank <= rest.candidate.rank then accepted[0] else rest
  }

  function Rates(accepted: seq<Validation>): set<Option<int>> {
    set v | v in accepted :: v.rate
  }

  function Decided(validations: seq<Validation>): Decision {
    var accepted := Accepted(validations);
    if accepted == [] then Decision(Refused, None, validations)
    else if |Rates(accepted)| > 1 then Decision(Conflicted, None, validations)
    else Decision(Verified, Some(Best(accepted)), validations)
  }

  ghost predicate AreValidations(t: Texts, candidates: seq<Candidate>, q: Query, v: seq<Validation>) {
    |v| == |candidates| && forall i :: 0 <= i < |v| ==> IsValidation(t, candidates[i], q, v[i])
  }

  /** `decide_applicable_rule`. */
  method DecideApplicableRule(t: Texts, candidates: seq<Candidate>, q: Query) returns (d: Decision)
    ensures AreValidations(t, candidates, q, d.validations)
    ensures d == Decided(d.validations)
    ensures MeetsPolicy(t, candidates, q, d)
  {
    var validations := [];
    for i := 0 to |candidates|
      invariant AreValidations(t, candidates[..i], q, validations)
    {
      var v := ValidateCandidate(t, candidates[i], q);
      validations := validations + [v];
    }
    assert candidates[..|candidates|] == candidates;
    d := Decided(validations);
    DecisionMeetsPolicy(t, candidates, q, validations);
  }

  // What the decision depends on

  /** The rates of the applicable candidates. */
  ghost function ApplicableRates(t: Texts, candidates: seq<Candidate>, q: Query): set<Option<int>> {
    set c | c in candidates && Applicable(t, c, q) :: RateMinor(c.rate)
  }

  function RateOf(d: Decision): Option<int> {
    if d.accepted.Some? then d.accepted.value.rate else None
  }

  /** No applicable rate refuses, more than one distinct rate conflicts, and a single rate is the decision's. */
  ghost predicate FollowsRates(rates: set<Option<int>>, d: Decision) {
    && (d.state == Refused <==> rates == {})
    && (d.state == Conflicted <==> exists a, b :: a in rates && b in rates && a != b)
    && (d.state == Verified <==> d.accepted.Some?)
    && (d.state == Verified ==> rates == {RateOf(d)})
  }

  /** What is accepted is an applicable candidate of the lowest rank. */
  ghost predicate TakesLowest(t: Texts, candidates: seq<Candidate>, q: Query, d: Decision) {
    d.accepted.Some? ==>
      && d.accepted.value.candidate in candidates
      && Applicable(t, d.accepted.value.candidate, q)
      && forall c :: c in candidates && Applicable(t, c, q) ==> d.accepted.value.candidate.rank <= c.rank
  }

  /** The policy as documented. */
  ghost predicate MeetsPolicy(t: Texts, candidates: seq<Candidate>, q: Query, d: Decision) {
    FollowsRates(ApplicableRates(t, candidates, q), d) && TakesLowest(t, candidates, q, d)
  }

  lemma {:induction false} BestIsLowest(accepted: seq<Validation>)
    requires accepted != []
    ensures Best(accepted) in accepted
    ensures forall v :: v in accepted ==> Best(accepted).candidate.rank <= v.candidate.rank
  {
    if |accepted| > 1 {
      BestIsLowest(accepted[1..]);
      assert accepted == [accepted[0]] + accepted[1..];
    }
  }

  /** Among equal ranks the earliest candidate is taken. */
  lemma {:induction false} BestIsFirst(accepted: seq<Validation>) returns (i: nat)
    requires accepted != []
    ensures i < |accepted| && Best(accepted) == accepted[i]
    ensures forall j :: 0 <= j < i ==> accepted[j].candidate.rank > accepted[i].candidate.rank
  {
    i := 0;
    if |accepted| > 1 && accepted[0].candidate.rank > Best(accepted[1..]).candidate.rank {
      var k := BestIsFirst(accepted[1..]);
      i := k + 1;
      forall j | 0 <= j < i
        ensures accepted[j].candidate.rank > accepted[i].candidate.rank
      {
        assert j > 0 ==> accepted[j] == accepted[1..][j - 1];
      }
    }
  }

  lemma AcceptedAreApplicable(t: Texts, candidates: seq<Candidate>, q: Query, v: seq<Validation>, x: Validation)
    requires AreValidations(t, candidates, q, v) && x in Accepted(v)
    ensures x.candidate in candidates && Applicable(t, x.candidate, q) && x.rate == RateMinor(x.candidate.rate)
  {
    FilterMembers((x: Validation) => x.accepted, v);
    var i :| 0 <= i < |v| && v[i] == x;
    AcceptedExactly(t, candidates[i], q, v[i]);
  }

  lemma ApplicableAreAccepted(t: Texts, candidates: seq<Candidate>, q: Query, v: seq<Validation>, c: Candidate)
    returns (x: Validation)
    requires AreValidations(t, candidates, q, v) && c in candidates && Applicable(t, c, q)
    ensures x in Accepted(v) && x.candidate == c && x.rate == RateMinor(c.rate)
  {
    FilterMembers((x: Validation) => x.accepted, v);
    var i :| 0 <= i < |candidates| && candidates[i] == c;
    AcceptedExactly(t, candidates[i], q, v[i]);
    x := v[i];
  }

  lemma RatesExactly(t: Texts, candidates: seq<Candidate>, q: Query, v: seq<Validation>)
    requires AreValidations(t, candidates, q, v)
    ensures Rates(Accepted(v)) == ApplicableRates(t, candidates, q)
  {
    forall x | x in Accepted(v)
      ensures x.rate in ApplicableRates(t, candidates, q)
    {
      AcceptedAreApplicable(t, candidates, q, v, x);
    }
    forall c | c in candidates && Applicable(t, c, q)
      ensures RateMinor(c.rate) in Rates(Accepted(v))
    {
      var x := ApplicableAreAccepted(t, candidates, q, v, c);
    }
  }

  lemma MoreThanOne<T>(s: set<T>)
    ensures |s| > 1 <==> exists a, b :: a in s && b in s && a != b
  {
    if s != {} {
      var a :| a in s;
      var rest := s - {a};
      assert |rest| == |s| - 1;
      if |s| > 1 {
        assert |rest| > 0;
        var b :| b in rest;
      } else {
        assert rest == {};
      }
    }
  }

  lemma DecisionMeetsPolicy(t: Texts, candidates: seq<Candidate>, q: Query, v: seq<Validation>)
    requires AreValidations(t, candidates, q, v)
    ensures MeetsPolicy(t, candidates, q, Decided(v))
  {
    RatesExactly(t, candidates, q, v);
    DecidedFollowsRates(v);
    var accepted := Accepted(v);
    if accepted != [] && |Rates(accepted)| <= 1 {
      BestIsLowest(accepted);
      AcceptedAreApplicable(t, candidates, q, v, Best(accepted));
      forall c | c in candidates && Applicable(t, c, q)
        ensures Best(accepted).candidate.rank <= c.rank
      {
        var x := ApplicableAreAccepted(t, candidates, q, v, c);
      }
    }
  }

  lemma DecidedFollowsRates(v: seq<Validation>)
    ensures FollowsRates(Rates(Accepted(v)), Decided(v))
  {
    var accepted := Accepted(v);
    var rates := Rates(accepted);
    MoreThanOne(rates);
    if accepted != [] {
      assert accepted[0].rate in rates;
      BestIsLowest(accepted);
      assert Best(accepted).rate in rates;
    }
  }

  /** The state and rate are a function of the applicable rates alone. */
  lemma OnlyApplicableRatesMatter(rates: set<Option<int>>, d: Decision, e: Decision)
    requires FollowsRates(rates, d) && FollowsRates(rates, e)
    ensures d.state == e.state
    ensures RateOf(d) == RateOf(e)
  {
    if d.state == Verified {
      assert RateOf(d) in rates;
    }
  }

  /** Neither the order of the candidates nor any that are not applicable matter. */
  lemma OrderAndRejectsNeverMatter(t: Texts, a: seq<Candidate>, b: seq<Candidate>, q: Query, d: Decision, e: Decision)
    requires MeetsPolicy(t, a, q, d) && MeetsPolicy(t, b, q, e)
    requires forall c :: Applicable(t, c, q) ==> (c in a <==> c in b)
    ensures d.state == e.state && RateOf(d) == RateOf(e)
  {
    assert ApplicableRates(t, a, q) == ApplicableRates(t, b, q);
    OnlyApplicableRatesMatter(ApplicableRates(t, a, q), d, e);
  }

  lemma RatesAlike(t: Texts, a: seq<Candidate>, b: seq<Candidate>, q: Query)
    requires |a| == |b| && forall i :: 0 <= i < |a| ==> SameClause(a[i], b[i])
    ensures ApplicableRates(t, a, q) <= ApplicableRates(t, b, q)
  {
    forall r | r in ApplicableRates(t, a, q)
      ensures r in ApplicableRates(t, b, q)
    {
      var c :| c in a && Applicable(t, c, q) && r == RateMinor(c.rate);
      var i :| 0 <= i < |a| && a[i] == c;
      SameClauseApplies(t, a[i], b[i], q);
      assert b[i] in b;
    }
  }

  lemma SameClauseApplies(t: Texts, a: Candidate, b: Candidate, q: Query)
    requires SameClause(a, b)
    ensures Applicable(t, a, q) <==> Applicable(t, b, q)
    ensures RateMinor(a.rate) == RateMinor(b.rate)
  {
  }

  /** The same clause, however it was ranked. */
  ghost predicate SameClause(a: Candidate, b: Candidate) {
    b == a.(rank := b.rank, distance := b.distance)
  }

  /** The same clauses under any other ranks and distances give the same state and rate. */
  lemma RankAndDistanceNeverMatter(t: Texts, a: seq<Candidate>, b: seq<Candidate>, q: Query, d: Decision, e: Decision)
    requires MeetsPolicy(t, a, q, d) && MeetsPolicy(t, b, q, e)
    requires |a| == |b| && forall i :: 0 <= i < |a| ==> SameClause(a[i], b[i]) && SameClause(b[i], a[i])
    ensures d.state == e.state && RateOf(d) == RateOf(e)
  {
    RatesAlike(t, a, b, q);
    RatesAlike(t, b, a, q);
    OnlyApplicableRatesMatter(ApplicableRates(t, a, q), d, e);
  }

  /** More candidates never undo a conflict, and never turn an accepted rate into a different one. */
  lemma ConflictNeverUndone(t: Texts, a: seq<Candidate>, b: seq<Candidate>, q: Query, d: Decision, e: Decision)
    requires MeetsPolicy(t, a, q, d) && MeetsPolicy(t, b, q, e)
    requires forall c :: c in a ==> c in b
    ensures d.state == Conflicted ==> e.state == Conflicted
    ensures d.state == Verified ==> e.state == Conflicted || (e.state == Verified && RateOf(e) == RateOf(d))
  {
    assert ApplicableRates(t, a, q) <= ApplicableRates(t, b, q);
    if d.state == Verified {
      assert RateOf(d) in ApplicableRates(t, b, q);
    }
  }
}
