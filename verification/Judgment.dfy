/** Judging charged days and resolving one recommendation (src/core/judgment.py). */
module Judgment {
  import opened Wrappers

  /** `accessMissing` is whether terminal access is among the day's missing requirements. */
  datatype DayInput = DayInput(
    date: int, invoiced: int, applicable: Option<int>, currency: string, covered: bool, chargeable: bool, accessMissing: bool)

  datatype Outcome = Supported | RateDiscrepancy | InsufficientEvidence | ExcludedNotChargeable

  datatype DayJudgment = DayJudgment(
    date: int, invoiced: int, applicable: Option<int>, discrepancy: int, currency: string, outcome: Outcome)

  datatype RecommendationType = Dispute | ApproveForPayment | RequestEvidence
  datatype ReasonCode = MissingDaySource | MissingDayAccessEvidence | RuleNotVerified
  datatype Error = NoChargedDays | CurrencyMismatch

  datatype Recommendation = Recommendation(
    kind: RecommendationType, disputed: int, supported: int, claimed: int, currency: string, total: nat, covered: nat,
    judgments: seq<DayJudgment>, reasons: seq<ReasonCode>)

  /** `judge_day`. */
  function JudgeDay(d: DayInput): DayJudgment {
    if !d.chargeable then
      DayJudgment(d.date, d.invoiced, d.applicable, 0, d.currency, ExcludedNotChargeable)
    else if !d.covered || d.applicable.None? then
      DayJudgment(d.date, d.invoiced, d.applicable, 0, d.currency, InsufficientEvidence)
    else
      var discrepancy := d.invoiced - d.applicable.value;
      DayJudgment(d.date, d.invoiced, d.applicable, discrepancy, d.currency,
                  if discrepancy == 0 then Supported else RateDiscrepancy)
  }

  /** Chargeable, but without source coverage or without a verified rate. */
  predicate Open(d: DayInput) {
    d.chargeable && (!d.covered || d.applicable.None?)
  }

  predicate Settled(d: DayInput) {
    d.chargeable && d.covered && d.applicable.Some?
  }

  /** Billed below the applicable rate. */
  predicate UnderBilled(d: DayInput) {
    Settled(d) && d.invoiced < d.applicable.value
  }

  predicate OverBilled(d: DayInput) {
    Settled(d) && d.invoiced > d.applicable.value
  }

  // The sums over the judgments

  function Judgments(days: seq<DayInput>): (js: seq<DayJudgment>)
    ensures |js| == |days|
  {
    seq(|days|, i requires 0 <= i < |days| => JudgeDay(days[i]))
  }

  function Claims(j: DayJudgment): int {
    if j.outcome == ExcludedNotChargeable then 0 else j.invoiced
  }

  function Disputes(j: DayJudgment): int {
    if j.outcome == RateDiscrepancy then j.discrepancy else 0
  }

  function Supports(j: DayJudgment): int {
    if (j.outcome == Supported || j.outcome == RateDiscrepancy) && j.applicable.Some? then j.applicable.value else 0
  }

  function Total(measure: DayJudgment -> int, js: seq<DayJudgment>): int {
    if js == [] then 0 else measure(js[0]) + Total(measure, js[1..])
  }

  function CountChargeable(js: seq<DayJudgment>): nat {
    if js == [] then 0 else (if js[0].outcome == ExcludedNotChargeable then 0 else 1) + CountChargeable(js[1..])
  }

  function CountCovered(js: seq<DayJudgment>): nat {
    if js == [] then 0
    else (if js[0].outcome in {ExcludedNotChargeable, InsufficientEvidence} then 0 else 1) + CountCovered(js[1..])
  }

  predicate HasInsufficient(js: seq<DayJudgment>) {
    exists i :: 0 <= i < |js| && js[i].outcome == InsufficientEvidence
  }

  // Reason codes

  /** `by_day`: of two inputs with the same date, the later one stands. */
  function ByDay(days: seq<DayInput>): (m: map<int, DayInput>)
    ensures forall i :: 0 <= i < |days| ==> days[i].date in m
  {
    if days == [] then map[]
    else
      var last := days[|days| - 1];
      ByDay(days[..|days| - 1])[last.date := last]
  }

  function CodeFor(d: DayInput): ReasonCode {
    if !d.covered then (if d.accessMissing then MissingDayAccessEvidence else MissingDaySource) else RuleNotVerified
  }

  function Appended(reasons: seq<ReasonCode>, code: ReasonCode): seq<ReasonCode> {
    if code in reasons then reasons else reasons + [code]
  }

  /** The codes of the first `n` days, in order of first appearance. */
  function Reasons(days: seq<DayInput>, n: nat): seq<ReasonCode>
    requires n <= |days|
  {
    if n == 0 then []
    else if Open(days[n - 1]) then Appended(Reasons(days, n - 1), CodeFor(ByDay(days)[days[n - 1].date]))
    else Reasons(days, n - 1)
  }

  method ReasonCodes(days: seq<DayInput>, judgments: seq<DayJudgment>) returns (reasons: seq<ReasonCode>)
    requires judgments == Judgments(days)
    ensures reasons == Reasons(days, |days|)
  {
    reasons := [];
    var byDay := ByDay(days);
    for i := 0 to |judgments|
      invariant reasons == Reasons(days, i)
    {
      if judgments[i].outcome == InsufficientEvidence {
        var source := byDay[judgments[i].date];
        var code;
        if !source.covered {
          code := if source.accessMissing then MissingDayAccessEvidence else MissingDaySource;
        } else {
          code := RuleNotVerified;
        }
        if code !in reasons {
          reasons := reasons + [code];
        }
      }
    }
  }

  // The recommendation

  function Kind(js: seq<DayJudgment>): RecommendationType {
    if HasInsufficient(js) || CountChargeable(js) == 0 then RequestEvidence
    else if Total(Disputes, js) > 0 then Dispute
    else ApproveForPayment
  }

  function Resolved(days: seq<DayInput>): Recommendation
    requires days != []
  {
    var js := Judgments(days);
    Recommendation(Kind(js), Total(Disputes, js), Total(Supports, js), Total(Claims, js), days[0].currency,
                   CountChargeable(js), CountCovered(js), js, Reasons(days, |days|))
  }

  predicate OneCurrency(days: seq<DayInput>) {
    forall i :: 0 <= i < |days| ==> days[i].currency == days[0].currency
  }

  // Money

  function OpenAmount(d: DayInput): int {
    if Open(d) then d.invoiced else 0
  }

  /** The invoice rates of the days that stay open. */
  function OpenTotal(days: seq<DayInput>): int {
    if days == [] then 0 else OpenAmount(days[0]) + OpenTotal(days[1..])
  }

  lemma JudgmentsTail(days: seq<DayInput>)
    requires days != []
    ensures Judgments(days)[0] == JudgeDay(days[0])
    ensures Judgments(days)[1..] == Judgments(days[1..])
  {
  }

  /** The judgment shows the day's own figures; its outcome and discrepancy follow from them. */
  predicate JudgedAs(d: DayInput, j: DayJudgment) {
    && j.date == d.date && j.invoiced == d.invoiced && j.applicable == d.applicable && j.currency == d.currency
    && (j.outcome == ExcludedNotChargeable <==> !d.chargeable)
    && (j.outcome == InsufficientEvidence <==> d.chargeable && (!d.covered || d.applicable.None?))
    && (j.outcome == Supported <==> d.chargeable && d.covered && d.applicable == Some(d.invoiced))
    && (j.outcome == RateDiscrepancy <==> d.chargeable && d.covered && d.applicable.Some? && d.applicable.value != d.invoiced)
    && j.discrepancy == if j.outcome == RateDiscrepancy then d.invoiced - d.applicable.value else 0
  }

  lemma JudgedExactly(d: DayInput)
    ensures forall j :: JudgedAs(d, j) <==> j == JudgeDay(d)
  {
  }

  /** The invoice rates of the chargeable days. */
  function ChargedTotal(days: seq<DayInput>): int {
    if days == [] then 0 else (if days[0].chargeable then days[0].invoiced else 0) + ChargedTotal(days[1..])
  }

  /** The applicable rates of the chargeable days that are covered and have one. */
  function RateTotal(days: seq<DayInput>): int {
    if days == [] then 0 else (if Settled(days[0]) then days[0].applicable.value else 0) + RateTotal(days[1..])
  }

  function CountChargeableDays(days: seq<DayInput>): nat {
    if days == [] then 0 else (if days[0].chargeable then 1 else 0) + CountChargeableDays(days[1..])
  }

  function CountSettled(days: seq<DayInput>): nat {
    if days == [] then 0 else (if Settled(days[0]) then 1 else 0) + CountSettled(days[1..])
  }

  /** The sums over the judgments are sums over the days themselves. */
  lemma {:induction false} SumsExactly(days: seq<DayInput>)
    ensures var js := Judgments(days);
            && Total(Claims, js) == ChargedTotal(days)
            && Total(Supports, js) == RateTotal(days)
            && CountChargeable(js) == CountChargeableDays(days)
            && CountCovered(js) == CountSettled(days)
  {
    if days != [] {
      JudgmentsTail(days);
      SumsExactly(days[1..]);
    }
  }

  /** Every claimed cent is supported, disputed or still open. */
  lemma {:induction false} ClaimedIsConserved(days: seq<DayInput>)
    ensures var js := Judgments(days);
            Total(Claims, js) == Total(Supports, js) + Total(Disputes, js) + OpenTotal(days)
  {
    if days != [] {
      JudgmentsTail(days);
      ClaimedIsConserved(days[1..]);
    }
  }

  function CountOpen(days: seq<DayInput>): nat {
    if days == [] then 0 else (if Open(days[0]) then 1 else 0) + CountOpen(days[1..])
  }

  /** Every chargeable day is covered or open; "n of n days" is reported exactly when nothing is open. */
  lemma {:induction false} CoverageIsConserved(days: seq<DayInput>)
    ensures var js := Judgments(days);
            && CountChargeable(js) == CountCovered(js) + CountOpen(days)
            && (CountCovered(js) == CountChargeable(js) <==> !Any(Open, days))
  {
    if days != [] {
      JudgmentsTail(days);
      CoverageIsConserved(days[1..]);
      AnyCons(Open, days);
    }
  }

  function SettledExcess(d: DayInput): int {
    if Settled(d) then d.invoiced - d.applicable.value else 0
  }

  /** How much more than the applicable rates was billed, over the settled days; under-billed days count against it. */
  function Excess(days: seq<DayInput>): int {
    if days == [] then 0 else SettledExcess(days[0]) + Excess(days[1..])
  }

  lemma {:induction false} DisputedIsExcess(days: seq<DayInput>)
    ensures Total(Disputes, Judgments(days)) == Excess(days)
  {
    if days != [] {
      JudgmentsTail(days);
      DisputedIsExcess(days[1..]);
    }
  }

  ghost predicate Any(p: DayInput -> bool, days: seq<DayInput>) {
    exists i :: 0 <= i < |days| && p(days[i])
  }

  /** No day is open and some day is chargeable: a decision is due. */
  ghost predicate Decidable(days: seq<DayInput>) {
    !Any(Open, days) && Any((d: DayInput) => d.chargeable, days)
  }

  lemma {:induction false} ChargeableCounted(days: seq<DayInput>)
    ensures CountChargeable(Judgments(days)) > 0 <==> Any((d: DayInput) => d.chargeable, days)
  {
    if days != [] {
      JudgmentsTail(days);
      ChargeableCounted(days[1..]);
      var p := (d: DayInput) => d.chargeable;
      if Any(p, days[1..]) {
        var i :| 0 <= i < |days| - 1 && p(days[1..][i]);
        assert p(days[i + 1]);
      }
      if Any(p, days) && !p(days[0]) {
        var i :| 0 <= i < |days| && p(days[i]);
        assert p(days[1..][i - 1]);
      }
    }
  }

  lemma InsufficientExactly(days: seq<DayInput>)
    ensures HasInsufficient(Judgments(days)) <==> Any(Open, days)
  {
    if HasInsufficient(Judgments(days)) {
      var i :| 0 <= i < |days| && Judgments(days)[i].outcome == InsufficientEvidence;
      assert Open(days[i]);
    }
    if Any(Open, days) {
      var i :| 0 <= i < |days| && Open(days[i]);
      assert Judgments(days)[i].outcome == InsufficientEvidence;
    }
  }

  /** The recommendation as it is computed, in terms of the days themselves. */
  lemma KindExactly(days: seq<DayInput>)
    ensures var kind := Kind(Judgments(days));
            && (kind == RequestEvidence <==> !Decidable(days))
            && (kind == Dispute <==> Decidable(days) && Excess(days) > 0)
            && (kind == ApproveForPayment <==> Decidable(days) && Excess(days) <= 0)
  {
    InsufficientExactly(days);
    ChargeableCounted(days);
    DisputedIsExcess(days);
  }

  /** `resolve_recommendation`. */
  method ResolveRecommendation(days: seq<DayInput>) returns (r: Result<Recommendation, Error>)
    ensures r == if days == [] then Failure(NoChargedDays)
                 else if !OneCurrency(days) then Failure(CurrencyMismatch)
                 else Success(Resolved(days))
    ensures r == Failure(CurrencyMismatch) <==> exists i :: 0 <= i < |days| && days[i].currency != days[0].currency
    ensures r.Success? ==>
              && (forall i :: 0 <= i < |days| ==> days[i].currency == r.value.currency)
              && r.value.claimed == ChargedTotal(days)
              && r.value.supported == RateTotal(days)
              && r.value.disputed == Excess(days)
              && r.value.total == CountChargeableDays(days) && r.value.covered == CountSettled(days)
              && |r.value.judgments| == |days|
              && (forall i :: 0 <= i < |days| ==> JudgedAs(days[i], r.value.judgments[i]))
              && (r.value.kind == RequestEvidence <==> !Decidable(days))
              && (r.value.kind == Dispute <==> Decidable(days) && Excess(days) > 0)
  {
    SumsExactly(days);
    DisputedIsExcess(days);
    KindExactly(days);
    if days == [] {
      return Failure(NoChargedDays);
    }
    if !OneCurrency(days) {
      return Failure(CurrencyMismatch);
    }
    var js := Judgments(days);
    forall i | 0 <= i < |days|
      ensures JudgedAs(days[i], js[i])
    {
      JudgedExactly(days[i]);
    }
    var reasons := ReasonCodes(days, js);
    return Success(Recommendation(Kind(js), Total(Disputes, js), Total(Supports, js), Total(Claims, js),
                                  days[0].currency, CountChargeable(js), CountCovered(js), js, reasons));
  }

  /**
   * The recommendation as it is documented: a decidable invoice is approved when every settled day matches its rate
   * and disputed when some day is billed above it.
   */
  ghost predicate AsDocumented(days: seq<DayInput>) {
    var kind := Kind(Judgments(days));
    && (kind == RequestEvidence <==> !Decidable(days))
    && (kind == Dispute <==> Decidable(days) && Any(OverBilled, days))
    && (kind == ApproveForPayment <==> Decidable(days) && forall i :: 0 <= i < |days| ==> SettledExcess(days[i]) == 0)
  }

  lemma {:induction false} ExcessSigns(days: seq<DayInput>)
    ensures !Any(UnderBilled, days) ==> Excess(days) >= 0 && (Excess(days) > 0 <==> Any(OverBilled, days))
    ensures (forall i :: 0 <= i < |days| ==> SettledExcess(days[i]) == 0) <==> !Any(UnderBilled, days) && !Any(OverBilled, days)
    ensures (forall i :: 0 <= i < |days| ==> SettledExcess(days[i]) == 0) ==> Excess(days) == 0
  {
    if days != [] {
      ExcessSigns(days[1..]);
      AnyCons(UnderBilled, days);
      AnyCons(OverBilled, days);
      assert days == [days[0]] + days[1..];
      assert (forall i :: 0 <= i < |days| ==> SettledExcess(days[i]) == 0)
        <==> SettledExcess(days[0]) == 0 && forall i :: 0 <= i < |days[1..]| ==> SettledExcess(days[1..][i]) == 0;
    }
  }

  lemma AnyCons(p: DayInput -> bool, days: seq<DayInput>)
    requires days != []
    ensures Any(p, days) <==> p(days[0]) || Any(p, days[1..])
  {
    if Any(p, days) && !p(days[0]) {
      var i :| 0 <= i < |days| && p(days[i]);
      assert p(days[1..][i - 1]);
    }
    if Any(p, days[1..]) {
      var i :| 0 <= i < |days| - 1 && p(days[1..][i]);
      assert p(days[i + 1]);
    }
  }

  /**
   * Exactly when the documentation holds: nothing is under-billed, or the over-billed days outweigh the under-billed
   * ones, or no decision is due.
   */
  lemma AsDocumentedExactly(days: seq<DayInput>)
    ensures AsDocumented(days) <==> !Decidable(days) || !Any(UnderBilled, days) || Excess(days) > 0
  {
    KindExactly(days);
    ExcessSigns(days);
    if Excess(days) > 0 {
      SomeOverBilled(days);
    }
  }

  lemma {:induction false} SomeOverBilled(days: seq<DayInput>)
    requires Excess(days) > 0
    ensures Any(OverBilled, days)
  {
    AnyCons(OverBilled, days);
    if !OverBilled(days[0]) {
      SomeOverBilled(days[1..]);
    }
  }

  /** An approval supports the claim less the excess, so it pays exactly the claim if and only if the excess is zero. */
  lemma ApprovalPaysExactly(days: seq<DayInput>)
    requires days != [] && Resolved(days).kind == ApproveForPayment
    ensures Resolved(days).supported == Resolved(days).claimed - Excess(days)
    ensures Resolved(days).supported == Resolved(days).claimed <==> Excess(days) == 0
    ensures Resolved(days).supported > Resolved(days).claimed <==> Excess(days) < 0
  {
    KindExactly(days);
    DisputedIsExcess(days);
    ClaimedIsConserved(days);
    NothingOpen(days);
  }

  /** That is so as soon as no day is under-billed. */
  lemma ApprovalPaysTheClaim(days: seq<DayInput>)
    requires days != [] && !Any(UnderBilled, days)
    requires Resolved(days).kind == ApproveForPayment
    ensures Resolved(days).supported == Resolved(days).claimed && Resolved(days).disputed == 0
  {
    ApprovalPaysExactly(days);
    KindExactly(days);
    ExcessSigns(days);
    DisputedIsExcess(days);
  }

  lemma {:induction false} NothingOpen(days: seq<DayInput>)
    requires !Any(Open, days)
    ensures OpenTotal(days) == 0
  {
    if days != [] {
      AnyCons(Open, days);
      NothingOpen(days[1..]);
    }
  }

  /** A day billed below its rate cancels one billed above it: the invoice is approved for more than it claims. */
  lemma UnderBillingHidesADispute(date: int, currency: string)
    ensures var days := [DayInput(date, 300, Some(250), currency, true, true, false),
                         DayInput(date + 1, 150, Some(250), currency, true, true, false)];
            && Any(OverBilled, days)
            && Resolved(days).kind == ApproveForPayment
            && Resolved(days).supported > Resolved(days).claimed
            && Resolved(days).disputed < 0
  {
    var days := [DayInput(date, 300, Some(250), currency, true, true, false),
                 DayInput(date + 1, 150, Some(250), currency, true, true, false)];
    assert OverBilled(days[0]);
    assert days[1..] == [days[1]] && days[1..][1..] == [];
    assert Excess(days) == 50 + Excess(days[1..]) == -50;
    assert !Any(Open, days);
    assert ((d: DayInput) => d.chargeable)(days[0]);
    KindExactly(days);
    DisputedIsExcess(days);
    ClaimedIsConserved(days);
    NothingOpen(days);
  }

  // What the reason codes say

  ghost predicate DistinctDates(days: seq<DayInput>) {
    forall i, j :: 0 <= i < j < |days| ==> days[i].date != days[j].date
  }

  lemma {:induction false} ByDayFinds(days: seq<DayInput>, i: nat)
    requires i < |days|
    requires forall j :: i < j < |days| ==> days[j].date != days[i].date
    ensures ByDay(days)[days[i].date] == days[i]
  {
    if i < |days| - 1 {
      ByDayFinds(days[..|days| - 1], i);
    }
  }

  lemma {:induction false} ReasonsMembers(days: seq<DayInput>, n: nat, code: ReasonCode)
    requires n <= |days|
    ensures code in Reasons(days, n) <==>
            exists i :: 0 <= i < n && Open(days[i]) && code == CodeFor(ByDay(days)[days[i].date])
  {
    if n > 0 {
      ReasonsMembers(days, n - 1, code);
    }
  }

  /** Input `i` is the last one for its date. */
  predicate LastOfDate(days: seq<DayInput>, i: nat)
    requires i < |days|
  {
    forall j :: i < j < |days| ==> days[j].date != days[i].date
  }

  /** The code given for an open day is its own exactly when the last input for its date has the same code. */
  lemma OwnCodeExactly(days: seq<DayInput>, i: nat, last: nat)
    requires i < |days| && last < |days| && days[last].date == days[i].date && LastOfDate(days, last)
    ensures CodeFor(ByDay(days)[days[i].date]) == CodeFor(days[i]) <==> CodeFor(days[last]) == CodeFor(days[i])
  {
    ByDayFinds(days, last);
  }

  /** Every open day has the code of the last input for its date. */
  ghost predicate CodesAgree(days: seq<DayInput>) {
    forall i, j ::
      (0 <= i <= j < |days| && Open(days[i]) && days[j].date == days[i].date && LastOfDate(days, j))
      ==> CodeFor(days[j]) == CodeFor(days[i])
  }

  /** Every open day is given its own code. */
  ghost predicate OwnCodes(days: seq<DayInput>) {
    forall i :: 0 <= i < |days| && Open(days[i]) ==> CodeFor(ByDay(days)[days[i].date]) == CodeFor(days[i])
  }

  lemma {:induction false} LastInput(days: seq<DayInput>, i: nat) returns (last: nat)
    requires i < |days|
    ensures i <= last < |days| && days[last].date == days[i].date && LastOfDate(days, last)
    decreases |days| - i
  {
    if LastOfDate(days, i) {
      last := i;
    } else {
      var j :| i < j < |days| && days[j].date == days[i].date;
      last := LastInput(days, j);
    }
  }

  /** Each open day is explained by its own code if and only if the last input for its date has that code. */
  lemma OwnCodesExactly(days: seq<DayInput>)
    ensures OwnCodes(days) <==> CodesAgree(days)
  {
    forall i | 0 <= i < |days| && Open(days[i])
      ensures CodesAgree(days) ==> CodeFor(ByDay(days)[days[i].date]) == CodeFor(days[i])
    {
      var last := LastInput(days, i);
      OwnCodeExactly(days, i, last);
    }
    forall i, j | 0 <= i <= j < |days| && Open(days[i]) && days[j].date == days[i].date && LastOfDate(days, j)
      ensures OwnCodes(days) ==> CodeFor(days[j]) == CodeFor(days[i])
    {
      OwnCodeExactly(days, i, j);
    }
  }

  /** Then the codes are those of the open days and of no other. */
  lemma ReasonsExactly(days: seq<DayInput>, code: ReasonCode)
    requires CodesAgree(days)
    ensures code in Reasons(days, |days|) <==> exists i :: 0 <= i < |days| && Open(days[i]) && code == CodeFor(days[i])
  {
    OwnCodesExactly(days);
    ReasonsMembers(days, |days|, code);
  }

  /** One input per date is enough. */
  lemma ReasonsOfDistinctDates(days: seq<DayInput>, code: ReasonCode)
    requires DistinctDates(days)
    ensures code in Reasons(days, |days|) <==> exists i :: 0 <= i < |days| && Open(days[i]) && code == CodeFor(days[i])
  {
    assert CodesAgree(days);
    ReasonsExactly(days, code);
  }

  lemma {:induction false} ReasonsDistinct(days: seq<DayInput>, n: nat)
    requires n <= |days|
    ensures forall i, j :: 0 <= i < j < |Reasons(days, n)| ==> Reasons(days, n)[i] != Reasons(days, n)[j]
  {
    if n > 0 {
      ReasonsDistinct(days, n - 1);
    }
  }

  /** Two inputs for one date: the open day is explained by the other one. */
  lemma RepeatedDateMisexplains(date: int, currency: string)
    ensures var days := [DayInput(date, 100, None, currency, false, true, false),
                         DayInput(date, 100, Some(100), currency, true, true, false)];
            Open(days[0]) && CodeFor(days[0]) == MissingDaySource && MissingDaySource !in Reasons(days, 2)
  {
    var days := [DayInput(date, 100, None, currency, false, true, false),
                 DayInput(date, 100, Some(100), currency, true, true, false)];
    ByDayFinds(days, 1);
    ReasonsMembers(days, 2, MissingDaySource);
  }

  /** Reasons are given exactly when evidence is still missing. */
  lemma ReasonsExplainOpenDays(days: seq<DayInput>)
    ensures Reasons(days, |days|) != [] <==> Any(Open, days)
  {
    if Any(Open, days) {
      var i :| 0 <= i < |days| && Open(days[i]);
      ReasonsMembers(days, |days|, CodeFor(ByDay(days)[days[i].date]));
    }
    if Reasons(days, |days|) != [] {
      var code := Reasons(days, |days|)[0];
      ReasonsMembers(days, |days|, code);
      var i :| 0 <= i < |days| && Open(days[i]) && code == CodeFor(ByDay(days)[days[i].date]);
    }
  }
}
