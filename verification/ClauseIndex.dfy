/** The scope-partitioned clause index and its brute-force reference (src/core/vector_retrieval.py). */
module ClauseIndex {
  import opened Wrappers
  import opened Sorting
  import opened Text

  type Bytes = seq<bv8>

  datatype Scope = Scope(tenant: string, carrier: string, family: string)

  /** What breaks ties between equally near clauses. */
  datatype Names = Names(clause: string, capture: string, version: string)

  datatype Document = Document(
    scope: Scope, names: Names, sourceSha: string, clauseSha: string, effectiveFrom: int, effectiveTo: Option<int>,
    equipment: string, route: string, service: string, rate: real, currency: string, rateUnit: string, text: string,
    embedding: seq<real>, embeddingVerified: bool, source: Option<Bytes>)

  datatype Request = Request(
    scope: Scope, chargeDate: int, equipment: string, route: string, service: string, query: seq<real>)

  /** Vector distance, digests and text decoding, none of which the index depends on in any other way. */
  datatype Checks = Checks(
    distance: (seq<real>, seq<real>) -> Option<real>,
    sha: Bytes -> string, shaText: string -> string, decode: Bytes -> Option<string>,
    normalize: string -> string, iso: int -> string)

  datatype Temporal = Applies | NotYetEffective | Expired
  datatype Source = Verified | Missing | NotUtf8 | HashMismatch | ClauseHashMismatch | ClauseAbsent | EffectiveDateAbsent
  datatype Reason = InvalidEmbedding | EmbeddingHashMismatch | EquipmentMismatch | RouteMismatch | ServiceMismatch
    | TemporalReason(temporal: Temporal) | SourceReason(source: Source)
  datatype Abstention = MissingScope | MissingContext | NoScopedCandidates | NoCandidatePassed

  datatype Candidate = Candidate(
    scope: Scope, names: Names, equipment: string, route: string, service: string, rate: real, currency: string,
    rateUnit: string, embeddingVerified: bool, distance: Option<real>, temporal: Temporal, source: Source,
    selected: bool, reasons: seq<Reason>)

  datatype Retrieval = Retrieval(candidates: seq<Candidate>, selected: Option<Candidate>, reasons: seq<Abstention>)

  // Evaluation of one document

  function TemporalStatus(d: Document, date: int): Temporal {
    if date < d.effectiveFrom then NotYetEffective
    else if d.effectiveTo.Some? && date > d.effectiveTo.value then Expired
    else Applies
  }

  function SourceStatus(checks: Checks, d: Document): Source {
    if d.source.None? then Missing
    else if checks.shaText(d.text) != d.clauseSha then ClauseHashMismatch
    else if checks.sha(d.source.value) != d.sourceSha then HashMismatch
    else match checks.decode(d.source.value)
      case None => NotUtf8
      case Some(text) =>
        if !Occurs(checks.normalize(d.text), checks.normalize(text)) then ClauseAbsent
        else if !Occurs(checks.iso(d.effectiveFrom), text) then EffectiveDateAbsent
        else if d.effectiveTo.Some? && !Occurs(checks.iso(d.effectiveTo.value), text) then EffectiveDateAbsent
        else Verified
  }

  function When(broken: bool, reason: Reason): seq<Reason> {
    if broken then [reason] else []
  }

  function ContextReasons(checks: Checks, d: Document, r: Request): seq<Reason> {
    When(checks.distance(r.query, d.embedding).None?, InvalidEmbedding)
    + When(!d.embeddingVerified, EmbeddingHashMismatch)
    + When(d.equipment != r.equipment, EquipmentMismatch)
    + When(d.route != r.route, RouteMismatch)
    + When(d.service != r.service, ServiceMismatch)
  }

  function Reasons(checks: Checks, d: Document, r: Request): seq<Reason> {
    ContextReasons(checks, d, r)
    + When(TemporalStatus(d, r.chargeDate) != Applies, TemporalReason(TemporalStatus(d, r.chargeDate)))
    + When(SourceStatus(checks, d) != Verified, SourceReason(SourceStatus(checks, d)))
  }

  /** `_evaluate`. */
  function Evaluate(checks: Checks, d: Document, r: Request): Candidate {
    var reasons := Reasons(checks, d, r);
    Candidate(d.scope, d.names, d.equipment, d.route, d.service, d.rate, d.currency, d.rateUnit, d.embeddingVerified,
              checks.distance(r.query, d.embedding), TemporalStatus(d, r.chargeDate), SourceStatus(checks, d),
              reasons == [], reasons)
  }

  /** The clause is really in its retained source, under the digests and dates it claims. */
  ghost predicate Sourced(checks: Checks, d: Document) {
    && d.source.Some?
    && checks.shaText(d.text) == d.clauseSha
    && checks.sha(d.source.value) == d.sourceSha
    && checks.decode(d.source.value).Some?
    && var text := checks.decode(d.source.value).value;
    && Occurs(checks.normalize(d.text), checks.normalize(text))
    && Occurs(checks.iso(d.effectiveFrom), text)
    && (d.effectiveTo.Some? ==> Occurs(checks.iso(d.effectiveTo.value), text))
  }

  /** Every postfilter, as the module's documentation lists them. */
  ghost predicate Passes(checks: Checks, d: Document, r: Request) {
    && checks.distance(r.query, d.embedding).Some?
    && d.embeddingVerified
    && d.equipment == r.equipment && d.route == r.route && d.service == r.service
    && d.effectiveFrom <= r.chargeDate
    && (d.effectiveTo.Some? ==> r.chargeDate <= d.effectiveTo.value)
    && Sourced(checks, d)
  }

  lemma SelectedExactly(checks: Checks, d: Document, r: Request)
    ensures Evaluate(checks, d, r).selected <==> Passes(checks, d, r)
  {
    assert SourceStatus(checks, d) == Verified <==> Sourced(checks, d);
  }

  /** The retained source is there under its digest, and the clause under its own. */
  ghost predicate Retained(checks: Checks, d: Document) {
    d.source.Some? && checks.shaText(d.text) == d.clauseSha && checks.sha(d.source.value) == d.sourceSha
  }

  /** The dates the clause claims stand in the text. */
  ghost predicate Dated(checks: Checks, d: Document, text: string) {
    && Occurs(checks.iso(d.effectiveFrom), text)
    && (d.effectiveTo.Some? ==> Occurs(checks.iso(d.effectiveTo.value), text))
  }

  /** What each status of a source means; they exclude each other. */
  ghost predicate SourceIs(checks: Checks, d: Document, status: Source) {
    match status
    case Missing => d.source.None?
    case ClauseHashMismatch => d.source.Some? && checks.shaText(d.text) != d.clauseSha
    case HashMismatch =>
      d.source.Some? && checks.shaText(d.text) == d.clauseSha && checks.sha(d.source.value) != d.sourceSha
    case NotUtf8 => Retained(checks, d) && checks.decode(d.source.value).None?
    case ClauseAbsent =>
      && Retained(checks, d) && checks.decode(d.source.value).Some?
      && !Occurs(checks.normalize(d.text), checks.normalize(checks.decode(d.source.value).value))
    case EffectiveDateAbsent =>
      && Retained(checks, d) && checks.decode(d.source.value).Some?
      && Occurs(checks.normalize(d.text), checks.normalize(checks.decode(d.source.value).value))
      && !Dated(checks, d, checks.decode(d.source.value).value)
    case Verified => Sourced(checks, d)
  }

  /** The postfilter behind a reason fails. */
  ghost predicate Fails(checks: Checks, d: Document, r: Request, reason: Reason) {
    match reason
    case InvalidEmbedding => checks.distance(r.query, d.embedding).None?
    case EmbeddingHashMismatch => !d.embeddingVerified
    case EquipmentMismatch => d.equipment != r.equipment
    case RouteMismatch => d.route != r.route
    case ServiceMismatch => d.service != r.service
    case TemporalReason(Applies) => false
    case TemporalReason(NotYetEffective) => r.chargeDate < d.effectiveFrom
    case TemporalReason(Expired) => d.effectiveFrom <= r.chargeDate && d.effectiveTo.Some? && d.effectiveTo.value < r.chargeDate
    case SourceReason(s) => s != Verified && SourceIs(checks, d, s)
  }

  lemma WhenMembers(before: seq<Reason>, broken: bool, reason: Reason, x: Reason)
    ensures x in before + When(broken, reason) <==> x in before || (broken && x == reason)
  {
  }

  lemma ScopeReasons(checks: Checks, d: Document, r: Request, x: Reason)
    ensures x in ContextReasons(checks, d, r) <==> !x.TemporalReason? && !x.SourceReason? && Fails(checks, d, r, x)
  {
    var a := When(checks.distance(r.query, d.embedding).None?, InvalidEmbedding);
    var b := a + When(!d.embeddingVerified, EmbeddingHashMismatch);
    WhenMembers(a, !d.embeddingVerified, EmbeddingHashMismatch, x);
    var c := b + When(d.equipment != r.equipment, EquipmentMismatch);
    WhenMembers(b, d.equipment != r.equipment, EquipmentMismatch, x);
    var e := c + When(d.route != r.route, RouteMismatch);
    WhenMembers(c, d.route != r.route, RouteMismatch, x);
    WhenMembers(e, d.service != r.service, ServiceMismatch, x);
  }

  /** Each postfilter that fails is named, and no other. */
  lemma ReasonsExactly(checks: Checks, d: Document, r: Request, x: Reason)
    ensures x in Evaluate(checks, d, r).reasons <==> Fails(checks, d, r, x)
  {
    StatusExactly(checks, d, r);
    var t, s := TemporalStatus(d, r.chargeDate), SourceStatus(checks, d);
    var f := ContextReasons(checks, d, r);
    ScopeReasons(checks, d, r, x);
    WhenMembers(f, t != Applies, TemporalReason(t), x);
    WhenMembers(f + When(t != Applies, TemporalReason(t)), s != Verified, SourceReason(s), x);
  }

  /** The order in which the postfilters are tried. */
  function Turn(reason: Reason): nat {
    match reason
    case InvalidEmbedding => 0
    case EmbeddingHashMismatch => 1
    case EquipmentMismatch => 2
    case RouteMismatch => 3
    case ServiceMismatch => 4
    case TemporalReason(_) => 5
    case SourceReason(_) => 6
  }

  /** The turns rise, and stay below `below`. */
  predicate InTurn(reasons: seq<Reason>, below: nat)
    decreases |reasons|
  {
    reasons == [] ||
    var last := reasons[|reasons| - 1];
    Turn(last) < below && InTurn(reasons[..|reasons| - 1], Turn(last))
  }

  lemma InTurnAppend(before: seq<Reason>, broken: bool, reason: Reason)
    requires InTurn(before, Turn(reason))
    ensures InTurn(before + When(broken, reason), Turn(reason) + 1)
  {
    var more := before + When(broken, reason);
    if broken {
      assert more[..|more| - 1] == before;
    } else {
      assert more == before;
    }
  }

  /** So of any two the earlier is of an earlier postfilter. */
  lemma {:induction false} TurnsRise(reasons: seq<Reason>, below: nat)
    requires InTurn(reasons, below)
    ensures forall i, j :: 0 <= i < j < |reasons| ==> Turn(reasons[i]) < Turn(reasons[j])
    ensures forall i :: 0 <= i < |reasons| ==> Turn(reasons[i]) < below
    decreases |reasons|
  {
    if reasons != [] {
      TurnsRise(reasons[..|reasons| - 1], Turn(reasons[|reasons| - 1]));
    }
  }

  lemma FirstThreeInTurn(x: bool, y: bool, z: bool)
    ensures InTurn(When(x, InvalidEmbedding) + When(y, EmbeddingHashMismatch) + When(z, EquipmentMismatch), 3)
  {
    var a := When(x, InvalidEmbedding);
    InTurnAppend([], x, InvalidEmbedding);
    assert [] + a == a;
    InTurnAppend(a, y, EmbeddingHashMismatch);
    InTurnAppend(a + When(y, EmbeddingHashMismatch), z, EquipmentMismatch);
  }

  lemma ContextInTurn(checks: Checks, d: Document, r: Request)
    ensures InTurn(ContextReasons(checks, d, r), 5)
  {
    var x, y, z := checks.distance(r.query, d.embedding).None?, !d.embeddingVerified, d.equipment != r.equipment;
    FirstThreeInTurn(x, y, z);
    var a := When(x, InvalidEmbedding) + When(y, EmbeddingHashMismatch) + When(z, EquipmentMismatch);
    InTurnAppend(a, d.route != r.route, RouteMismatch);
    InTurnAppend(a + When(d.route != r.route, RouteMismatch), d.service != r.service, ServiceMismatch);
  }

  lemma LastTwoInTurn(before: seq<Reason>, x: bool, temporal: Temporal, y: bool, source: Source)
    requires InTurn(before, 5)
    ensures InTurn(before + When(x, TemporalReason(temporal)) + When(y, SourceReason(source)), 7)
  {
    InTurnAppend(before, x, TemporalReason(temporal));
    InTurnAppend(before + When(x, TemporalReason(temporal)), y, SourceReason(source));
  }

  /** The reasons stand in the order of the postfilters, each at most once. */
  lemma ReasonsInOrder(checks: Checks, d: Document, r: Request)
    ensures InTurn(Evaluate(checks, d, r).reasons, 7)
  {
    var t, s := TemporalStatus(d, r.chargeDate), SourceStatus(checks, d);
    ContextInTurn(checks, d, r);
    LastTwoInTurn(ContextReasons(checks, d, r), t != Applies, t, s != Verified, s);
  }

  /** Each status of source and date is given exactly where it is the case. */
  lemma StatusExactly(checks: Checks, d: Document, r: Request)
    ensures forall s :: Evaluate(checks, d, r).source == s <==> SourceIs(checks, d, s)
    ensures Evaluate(checks, d, r).temporal == NotYetEffective <==> r.chargeDate < d.effectiveFrom
    ensures Evaluate(checks, d, r).temporal == Expired <==>
              d.effectiveFrom <= r.chargeDate && d.effectiveTo.Some? && d.effectiveTo.value < r.chargeDate
  {
  }

  // Ranking

  predicate NamesAtMost(a: Names, b: Names) {
    if a.clause != b.clause then AtMost(a.clause, b.clause)
    else if a.capture != b.capture then AtMost(a.capture, b.capture)
    else AtMost(a.version, b.version)
  }

  /** The sort key: no distance last, then distance, clause, capture and version. */
  predicate Ranked(a: Candidate, b: Candidate) {
    if a.distance.None? != b.distance.None? then b.distance.None?
    else if a.distance != b.distance then a.distance.value < b.distance.value
    else NamesAtMost(a.names, b.names)
  }

  lemma NamesComparable(a: Names, b: Names)
    ensures NamesAtMost(a, b) || NamesAtMost(b, a)
    ensures NamesAtMost(a, b) && NamesAtMost(b, a) ==> a == b
  {
    AtMostTotal(a.clause, b.clause);
    AtMostTotal(a.capture, b.capture);
    AtMostTotal(a.version, b.version);
    if NamesAtMost(a, b) && NamesAtMost(b, a) {
      if a.clause != b.clause {
        AtMostAntisymmetric(a.clause, b.clause);
      } else if a.capture != b.capture {
        AtMostAntisymmetric(a.capture, b.capture);
      } else {
        AtMostAntisymmetric(a.version, b.version);
      }
    }
  }

  lemma AtMostStrict(a: string, b: string, c: string)
    requires AtMost(a, b) && AtMost(b, c) && (a != b || b != c)
    ensures AtMost(a, c) && a != c
  {
    AtMostTransitive(a, b, c);
    if a == c {
      AtMostAntisymmetric(a, b);
    }
  }

  lemma NamesChained(a: Names, b: Names, c: Names)
    requires NamesAtMost(a, b) && NamesAtMost(b, c)
    ensures NamesAtMost(a, c)
  {
    if a.clause != b.clause || b.clause != c.clause {
      AtMostTotal(a.clause, a.clause);
      AtMostTotal(b.clause, b.clause);
      AtMostStrict(a.clause, b.clause, c.clause);
    } else if a.capture != b.capture || b.capture != c.capture {
      AtMostTotal(a.capture, a.capture);
      AtMostTotal(b.capture, b.capture);
      AtMostStrict(a.capture, b.capture, c.capture);
    } else {
      AtMostTransitive(a.version, b.version, c.version);
    }
  }

  lemma RankedIsOrder()
    ensures TotalPreorder(Ranked)
  {
    forall a, b
      ensures Comparable(Ranked, a, b)
    {
      NamesComparable(a.names, b.names);
    }
    forall a, b, c
      ensures Chained(Ranked, a, b, c)
    {
      if Ranked(a, b) && Ranked(b, c) && a.distance == b.distance == c.distance {
        NamesChained(a.names, b.names, c.names);
      }
    }
  }

  function Evaluations(checks: Checks, docs: seq<Document>, r: Request): (s: seq<Candidate>)
    ensures |s| == |docs|
  {
    if docs == [] then [] else [Evaluate(checks, docs[0], r)] + Evaluations(checks, docs[1..], r)
  }

  function InScope(scope: Scope): Document -> bool {
    (d: Document) => d.scope == scope
  }

  /** `_ranked_evaluations`. */
  function RankedEvaluations(checks: Checks, docs: seq<Document>, r: Request): seq<Candidate> {
    Sort(Ranked, Evaluations(checks, Filter(InScope(r.scope), docs), r))
  }

  function FirstSelected(s: seq<Candidate>): Option<Candidate> {
    if s == [] then None else if s[0].selected then Some(s[0]) else FirstSelected(s[1..])
  }

  predicate HasScope(r: Request) {
    !Blank(r.scope.tenant) && !Blank(r.scope.carrier) && !Blank(r.scope.family)
  }

  predicate HasContext(r: Request) {
    !Blank(r.equipment) && !Blank(r.route) && !Blank(r.service)
  }

  /** `_result_from`, which is also `retrieve_brute_force`. */
  function BruteForce(checks: Checks, docs: seq<Document>, r: Request): Retrieval {
    if !HasScope(r) then Retrieval([], None, [MissingScope])
    else if !HasContext(r) then Retrieval([], None, [MissingContext])
    else
      var candidates := RankedEvaluations(checks, docs, r);
      var selected := FirstSelected(candidates);
      Retrieval(candidates, selected,
                if selected.Some? then [] else if candidates == [] then [NoScopedCandidates] else [NoCandidatePassed])
  }

  // The index

  type Index = map<Scope, seq<Document>>

  function Lookup(index: Index, scope: Scope): seq<Document> {
    if scope in index then index[scope] else []
  }

  /** `ClauseIndex.retrieve`. */
  function Retrieve(checks: Checks, index: Index, r: Request): Retrieval {
    if !HasScope(r) then BruteForce(checks, [], r) else BruteForce(checks, Lookup(index, r.scope), r)
  }

  /** `ClauseIndex.build`: each scope holds its documents in their original order, and no scope is invented. */
  method Build(docs: seq<Document>) returns (index: Index)
    ensures forall scope :: Lookup(index, scope) == Filter(InScope(scope), docs)
    ensures forall scope :: scope in index ==> index[scope] != []
  {
    index := map[];
    for i := 0 to |docs|
      invariant forall scope :: Lookup(index, scope) == Filter(InScope(scope), docs[..i])
      invariant forall scope :: scope in index ==> index[scope] != []
    {
      var key := docs[i].scope;
      ghost var was := index;
      if key !in index {
        index := index[key := []];
      }
      index := index[key := index[key] + [docs[i]]];
      assert docs[..i + 1] == docs[..i] + [docs[i]];
      forall scope
        ensures Lookup(index, scope) == Filter(InScope(scope), docs[..i + 1])
      {
        FilterConcat(InScope(scope), docs[..i], [docs[i]]);
        assert Lookup(index, scope) == Lookup(was, scope) + if scope == key then [docs[i]] else [];
      }
    }
    assert docs[..|docs|] == docs;
  }

  /** Building an index and asking it is the same as scanning every document. */
  method BuildAndRetrieve(checks: Checks, docs: seq<Document>, r: Request) returns (result: Retrieval)
    ensures result == BruteForce(checks, docs, r)
    ensures forall i, j :: 0 <= i < j < |result.candidates| ==> InRankOrder(result.candidates[i], result.candidates[j])
    ensures result.selected.Some? ==>
              exists best :: Usable(checks, docs, r, best) && Shows(result.selected.value, best) &&
                forall d :: Usable(checks, docs, r, d) ==> NearerOrSooner(checks, r, best, d)
    ensures result.selected.None? ==> !HasScope(r) || !HasContext(r) || forall d :: !Usable(checks, docs, r, d)
  {
    var index := Build(docs);
    IndexAgrees(checks, docs, index, r);
    result := Retrieve(checks, index, r);
    forall i, j | 0 <= i < j < |result.candidates|
      ensures InRankOrder(result.candidates[i], result.candidates[j])
    {
      CandidatesInOrder(checks, docs, r, i, j);
    }
    if result.selected.Some? {
      var best := SelectsNearest(checks, docs, r);
    }
    AbstainsExactly(checks, docs, r);
  }

  lemma IndexAgrees(checks: Checks, docs: seq<Document>, index: Index, r: Request)
    requires Lookup(index, r.scope) == Filter(InScope(r.scope), docs)
    ensures Retrieve(checks, index, r) == BruteForce(checks, docs, r)
  {
    FilterTwice(InScope(r.scope), InScope(r.scope), docs);
  }

  /** Dropping any documents of other scopes changes nothing. */
  lemma OutsideNeverMatters(checks: Checks, docs: seq<Document>, keep: Document -> bool, r: Request)
    requires forall d :: d in docs && d.scope == r.scope ==> keep(d)
    ensures BruteForce(checks, Filter(keep, docs), r) == BruteForce(checks, docs, r)
  {
    FilterTwice(InScope(r.scope), keep, docs);
  }

  // Order independence

  lemma {:induction false} EvaluationsConcat(checks: Checks, a: seq<Document>, b: seq<Document>, r: Request)
    ensures Evaluations(checks, a + b, r) == Evaluations(checks, a, r) + Evaluations(checks, b, r)
  {
    if a == [] {
      assert a + b == b;
    } else {
      assert (a + b)[1..] == a[1..] + b;
      EvaluationsConcat(checks, a[1..], b, r);
    }
  }

  lemma {:induction false} EvaluationsMembers(checks: Checks, docs: seq<Document>, r: Request)
    ensures forall c :: c in Evaluations(checks, docs, r) <==> exists d :: d in docs && c == Evaluate(checks, d, r)
  {
    if docs != [] {
      EvaluationsMembers(checks, docs[1..], r);
      forall c
        ensures c in Evaluations(checks, docs, r) <==> exists d :: d in docs && c == Evaluate(checks, d, r)
      {
        var head := Evaluate(checks, docs[0], r);
        assert docs == [docs[0]] + docs[1..];
        assert c in Evaluations(checks, docs, r) <==> c == head || c in Evaluations(checks, docs[1..], r);
      }
    }
  }

  lemma EvaluationsMove(checks: Checks, front: seq<Document>, d: Document, back: seq<Document>, r: Request)
    ensures multiset(Evaluations(checks, front + ([d] + back), r))
         == multiset{Evaluate(checks, d, r)} + multiset(Evaluations(checks, front + back, r))
  {
    EvaluationsConcat(checks, front, back, r);
    EvaluationsConcat(checks, front, [d] + back, r);
    assert ([d] + back)[1..] == back;
  }

  lemma {:induction false} EvaluationsMultiset(checks: Checks, a: seq<Document>, b: seq<Document>, r: Request)
    requires multiset(a) == multiset(b)
    ensures multiset(Evaluations(checks, a, r)) == multiset(Evaluations(checks, b, r))
    decreases |a|
  {
    if a == [] {
      assert |multiset(b)| == |b|;
    } else {
      var front, back := TakeOut(a, b);
      EvaluationsMultiset(checks, a[1..], front + back, r);
      EvaluationsMove(checks, front, a[0], back, r);
    }
  }

  /** In the order they rank, tied candidates are told apart only by where their documents stood. */
  ghost predicate TiesAreIdentical(checks: Checks, docs: seq<Document>, r: Request) {
    forall x, y ::
      (x in docs && y in docs && x.scope == y.scope == r.scope && x.names == y.names
       && checks.distance(r.query, x.embedding) == checks.distance(r.query, y.embedding))
      ==> Evaluate(checks, x, r) == Evaluate(checks, y, r)
  }

  ghost predicate DistinctNames(docs: seq<Document>) {
    forall i, j :: 0 <= i < j < |docs| ==> docs[i].names != docs[j].names
  }

  /** The result does not depend on the order of the documents when only identical candidates tie. */
  lemma OrderNeverMatters(checks: Checks, a: seq<Document>, b: seq<Document>, r: Request)
    requires multiset(a) == multiset(b)
    requires DistinctNames(a) || TiesAreIdentical(checks, a, r)
    ensures BruteForce(checks, a, r) == BruteForce(checks, b, r)
  {
    var s, t := Filter(InScope(r.scope), a), Filter(InScope(r.scope), b);
    FilterMultiset(InScope(r.scope), a, b);
    EvaluationsMultiset(checks, s, t, r);
    RankedIsOrder();
    var x, y := Evaluations(checks, s, r), Evaluations(checks, t, r);
    forall c, d | c in x && d in x && Ranked(c, d) && Ranked(d, c)
      ensures c == d
    {
      TiedAreEqual(checks, a, r, c, d);
    }
    SortOrderFree(Ranked, x, y);
  }

  lemma TiedAreEqual(checks: Checks, docs: seq<Document>, r: Request, c: Candidate, d: Candidate)
    requires DistinctNames(docs) || TiesAreIdentical(checks, docs, r)
    requires c in Evaluations(checks, Filter(InScope(r.scope), docs), r)
    requires d in Evaluations(checks, Filter(InScope(r.scope), docs), r)
    requires Ranked(c, d) && Ranked(d, c)
    ensures c == d
  {
    NamesComparable(c.names, d.names);
    var x := EvaluatedFrom(checks, docs, r, c);
    var y := EvaluatedFrom(checks, docs, r, d);
    assert x.names == y.names;
  }

  lemma EvaluatedFrom(checks: Checks, docs: seq<Document>, r: Request, c: Candidate) returns (x: Document)
    requires c in Evaluations(checks, Filter(InScope(r.scope), docs), r)
    ensures x in docs && x.scope == r.scope && c == Evaluate(checks, x, r)
  {
    var scoped := Filter(InScope(r.scope), docs);
    FilterMembers(InScope(r.scope), docs);
    EvaluationsMembers(checks, scoped, r);
    x :| x in scoped && c == Evaluate(checks, x, r);
  }

  /** Elements that all tie keep their order under a stable sort. */
  lemma TiedKeepOrder(s: seq<Candidate>)
    requires forall x, y :: x in s && y in s ==> Ranked(x, y)
    ensures Sort(Ranked, s) == s
  {
    SortFixed(Ranked, s);
  }

  function Either(c: Candidate, d: Candidate): Candidate -> bool {
    (x: Candidate) => x == c || x == d
  }

  /** Of two tied candidates the one that comes first stays first. */
  lemma FirstStaysFirst(c: Candidate, d: Candidate, rest: seq<Candidate>)
    requires Ranked(c, d) && Ranked(d, c)
    ensures var kept := Filter(Either(c, d), Sort(Ranked, [c] + rest)); kept != [] && kept[0] == c
  {
    var p, s := Either(c, d), [c] + rest;
    EithersTie(c, d, s);
    RankedIsOrder();
    FilterSort(Ranked, p, s);
    FilterCons(p, c, rest);
    TiedKeepOrder(Filter(p, s));
  }

  lemma EithersTie(c: Candidate, d: Candidate, s: seq<Candidate>)
    requires Ranked(c, d) && Ranked(d, c)
    ensures forall x, y :: x in Filter(Either(c, d), s) && y in Filter(Either(c, d), s) ==> Ranked(x, y)
  {
    NamesComparable(c.names, c.names);
    NamesComparable(d.names, d.names);
    FilterMembers(Either(c, d), s);
  }

  lemma OppositeOrdersDiffer(c: Candidate, d: Candidate, a: seq<Candidate>, b: seq<Candidate>)
    requires c != d && Ranked(c, d) && Ranked(d, c)
    ensures Sort(Ranked, [c] + a) != Sort(Ranked, [d] + b)
  {
    FirstStaysFirst(c, d, a);
    FirstStaysFirst(d, c, b);
    assert Filter(Either(c, d), Sort(Ranked, [d] + b)) == Filter(Either(d, c), Sort(Ranked, [d] + b)) by {
      FilterAgrees(Either(c, d), Either(d, c), Sort(Ranked, [d] + b));
    }
  }

  lemma {:induction false} FilterAgrees(p: Candidate -> bool, q: Candidate -> bool, s: seq<Candidate>)
    requires forall x :: x in s ==> p(x) == q(x)
    ensures Filter(p, s) == Filter(q, s)
  {
    if s != [] {
      FilterAgrees(p, q, s[1..]);
    }
  }

  lemma PullOut(docs: seq<Document>, x: Document) returns (rest: seq<Document>)
    requires x in docs
    ensures multiset(docs) == multiset([x] + rest)
  {
    var i :| 0 <= i < |docs| && docs[i] == x;
    rest := docs[..i] + docs[i + 1..];
    assert docs == docs[..i] + ([x] + docs[i + 1..]);
  }

  /** The list with two of its documents in front, in either order. */
  lemma TwoInFront(docs: seq<Document>, x: Document, y: Document) returns (rest: seq<Document>)
    requires x in docs && y in docs && x != y
    ensures multiset([x] + ([y] + rest)) == multiset(docs) == multiset([y] + ([x] + rest))
  {
    var others := PullOut(docs, x);
    assert y in multiset([x] + others);
    assert y in others;
    rest := PullOut(others, y);
  }

  /** A document in scope that comes first is evaluated first. */
  lemma FrontIsEvaluatedFirst(checks: Checks, x: Document, rest: seq<Document>, r: Request) returns (tail: seq<Candidate>)
    requires x.scope == r.scope
    ensures RankedEvaluations(checks, [x] + rest, r) == Sort(Ranked, [Evaluate(checks, x, r)] + tail)
  {
    var scoped := Filter(InScope(r.scope), rest);
    FilterCons(InScope(r.scope), x, rest);
    tail := Evaluations(checks, scoped, r);
    assert ([x] + scoped)[1..] == scoped;
  }

  /** Tied documents that are not identical show in two orders of any list that holds them. */
  lemma TiesShowOrder(checks: Checks, docs: seq<Document>, x: Document, y: Document, r: Request)
    returns (a: seq<Document>, b: seq<Document>)
    requires HasScope(r) && HasContext(r) && x in docs && y in docs
    requires x.scope == y.scope == r.scope && x.names == y.names
    requires checks.distance(r.query, x.embedding) == checks.distance(r.query, y.embedding)
    requires Evaluate(checks, x, r) != Evaluate(checks, y, r)
    ensures multiset(a) == multiset(docs) == multiset(b)
    ensures BruteForce(checks, a, r) != BruteForce(checks, b, r)
  {
    var rest := TwoInFront(docs, x, y);
    a, b := [x] + ([y] + rest), [y] + ([x] + rest);
    var c, d := Evaluate(checks, x, r), Evaluate(checks, y, r);
    NamesComparable(c.names, d.names);
    var s := FrontIsEvaluatedFirst(checks, x, [y] + rest, r);
    var t := FrontIsEvaluatedFirst(checks, y, [x] + rest, r);
    OppositeOrdersDiffer(c, d, s, t);
  }

  /** Every order of the documents gives the same result. */
  ghost predicate OrderFree(checks: Checks, docs: seq<Document>, r: Request) {
    forall other :: multiset(other) == multiset(docs) ==> BruteForce(checks, other, r) == BruteForce(checks, docs, r)
  }

  /** With scope and context present, all orders agree if and only if tied documents evaluate alike. */
  lemma OrderFreeExactly(checks: Checks, docs: seq<Document>, r: Request)
    requires HasScope(r) && HasContext(r)
    ensures OrderFree(checks, docs, r) <==> TiesAreIdentical(checks, docs, r)
  {
    if TiesAreIdentical(checks, docs, r) {
      forall other | multiset(other) == multiset(docs)
        ensures BruteForce(checks, other, r) == BruteForce(checks, docs, r)
      {
        OrderNeverMatters(checks, docs, other, r);
      }
    } else {
      var x, y :| x in docs && y in docs && x.scope == y.scope == r.scope && x.names == y.names
                  && checks.distance(r.query, x.embedding) == checks.distance(r.query, y.embedding)
                  && Evaluate(checks, x, r) != Evaluate(checks, y, r);
      var a, b := TiesShowOrder(checks, docs, x, y, r);
    }
  }

  // Selection

  lemma {:induction false} FirstSelectedIsLeast(s: seq<Candidate>)
    requires TotalPreorder(Ranked) && Sorted(Ranked, s)
    ensures FirstSelected(s).None? <==> forall c :: c in s ==> !c.selected
    ensures FirstSelected(s).Some? ==>
              && FirstSelected(s).value in s
              && FirstSelected(s).value.selected
              && forall c :: c in s && c.selected ==> Ranked(FirstSelected(s).value, c)
  {
    if s != [] {
      FirstSelectedIsLeast(s[1..]);
      assert s == [s[0]] + s[1..];
      if s[0].selected {
        assert Comparable(Ranked, s[0], s[0]);
        BelowAll(Ranked, s[0], s);
      }
    }
  }

  ghost predicate Usable(checks: Checks, docs: seq<Document>, r: Request, d: Document) {
    d in docs && d.scope == r.scope && Passes(checks, d, r)
  }

  /** The candidates are the evaluations of the documents in scope, and nothing else. */
  lemma CandidateExactly(checks: Checks, docs: seq<Document>, r: Request, c: Candidate)
    ensures c in RankedEvaluations(checks, docs, r) <==>
            exists d :: d in docs && d.scope == r.scope && c == Evaluate(checks, d, r)
  {
    var scoped := Filter(InScope(r.scope), docs);
    FilterMembers(InScope(r.scope), docs);
    EvaluationsMembers(checks, scoped, r);
    var s := Evaluations(checks, scoped, r);
    assert c in Sort(Ranked, s) <==> c in multiset(Sort(Ranked, s));
    assert c in s <==> c in multiset(s);
  }

  lemma UsableIsCandidate(checks: Checks, docs: seq<Document>, r: Request, d: Document)
    requires Usable(checks, docs, r, d)
    ensures Evaluate(checks, d, r) in RankedEvaluations(checks, docs, r) && Evaluate(checks, d, r).selected
  {
    CandidateExactly(checks, docs, r, Evaluate(checks, d, r));
    SelectedExactly(checks, d, r);
  }

  lemma FirstOfRanked(checks: Checks, docs: seq<Document>, r: Request)
    ensures var s := RankedEvaluations(checks, docs, r);
            && (FirstSelected(s).None? <==> forall c :: c in s ==> !c.selected)
            && (FirstSelected(s).Some? ==>
                  && FirstSelected(s).value in s
                  && FirstSelected(s).value.selected
                  && forall c :: c in s && c.selected ==> Ranked(FirstSelected(s).value, c))
  {
    RankedIsOrder();
    SortSorted(Ranked, Evaluations(checks, Filter(InScope(r.scope), docs), r));
    FirstSelectedIsLeast(RankedEvaluations(checks, docs, r));
  }

  /** The candidates stand in rank order. */
  lemma CandidatesRanked(checks: Checks, docs: seq<Document>, r: Request)
    ensures Sorted(Ranked, BruteForce(checks, docs, r).candidates)
  {
    RankedIsOrder();
    SortSorted(Ranked, Evaluations(checks, Filter(InScope(r.scope), docs), r));
  }

  /** An abstention means that nothing in scope passes every postfilter, and its reason says which kind it is. */
  lemma AbstainsExactly(checks: Checks, docs: seq<Document>, r: Request)
    ensures var result := BruteForce(checks, docs, r);
            var unscoped := Blank(r.scope.tenant) || Blank(r.scope.carrier) || Blank(r.scope.family);
            var unplaced := Blank(r.equipment) || Blank(r.route) || Blank(r.service);
            && (result.selected.None? <==> unscoped || unplaced || forall d :: !Usable(checks, docs, r, d))
            && (result.reasons == [] <==> result.selected.Some?)
            && (result.reasons == [MissingScope] <==> unscoped)
            && (result.reasons == [MissingContext] <==> !unscoped && unplaced)
            && (!unscoped && !unplaced ==>
                  (result.reasons == [NoScopedCandidates] <==> forall d :: d in docs ==> d.scope != r.scope))
            && |result.reasons| <= 1
  {
    if HasScope(r) && HasContext(r) {
      var candidates := RankedEvaluations(checks, docs, r);
      FirstOfRanked(checks, docs, r);
      forall d | d in docs && d.scope == r.scope
        ensures Evaluate(checks, d, r) in candidates
        ensures Usable(checks, docs, r, d) <==> Evaluate(checks, d, r).selected
      {
        CandidateExactly(checks, docs, r, Evaluate(checks, d, r));
        SelectedExactly(checks, d, r);
      }
      forall c | c in candidates
        ensures exists d :: d in docs && d.scope == r.scope && c == Evaluate(checks, d, r)
      {
        CandidateExactly(checks, docs, r, c);
      }
      if candidates != [] {
        assert candidates[0] in candidates;
      }
    }
  }

  lemma ChosenDocument(checks: Checks, docs: seq<Document>, r: Request, chosen: Candidate) returns (best: Document)
    requires chosen in RankedEvaluations(checks, docs, r) && chosen.selected
    ensures Usable(checks, docs, r, best) && chosen == Evaluate(checks, best, r)
  {
    CandidateExactly(checks, docs, r, chosen);
    best :| best in docs && best.scope == r.scope && chosen == Evaluate(checks, best, r);
    SelectedExactly(checks, best, r);
  }

  lemma ChosenIsLeast(checks: Checks, docs: seq<Document>, r: Request, d: Document)
    requires Usable(checks, docs, r, d)
    ensures var first := FirstSelected(RankedEvaluations(checks, docs, r));
            first.Some? && Ranked(first.value, Evaluate(checks, d, r))
  {
    FirstOfRanked(checks, docs, r);
    UsableIsCandidate(checks, docs, r, d);
  }

  /** What is selected comes from a document that passes everything and is ranked first among those that do. */
  lemma SelectionIsLeast(checks: Checks, docs: seq<Document>, r: Request) returns (best: Document)
    requires BruteForce(checks, docs, r).selected.Some?
    ensures Usable(checks, docs, r, best)
    ensures BruteForce(checks, docs, r).selected == Some(Evaluate(checks, best, r))
    ensures forall d :: Usable(checks, docs, r, d) ==> Ranked(Evaluate(checks, best, r), Evaluate(checks, d, r))
  {
    var chosen := BruteForce(checks, docs, r).selected.value;
    assert FirstSelected(RankedEvaluations(checks, docs, r)) == Some(chosen);
    assert chosen in RankedEvaluations(checks, docs, r) && chosen.selected by {
      FirstOfRanked(checks, docs, r);
    }
    best := ChosenDocument(checks, docs, r, chosen);
    forall d | Usable(checks, docs, r, d)
      ensures Ranked(chosen, Evaluate(checks, d, r))
    {
      ChosenIsLeast(checks, docs, r, d);
    }
  }

  // The ranking in terms of the documents

  /** Clause first, then capture, then version, each in dictionary order. */
  ghost predicate NamesInOrder(a: Names, b: Names) {
    || (a.clause != b.clause && InDictionaryOrder(a.clause, b.clause))
    || (a.clause == b.clause && a.capture != b.capture && InDictionaryOrder(a.capture, b.capture))
    || (a.clause == b.clause && a.capture == b.capture && InDictionaryOrder(a.version, b.version))
  }

  lemma NamesAtMostExactly(a: Names, b: Names)
    ensures NamesAtMost(a, b) <==> NamesInOrder(a, b)
  {
    AtMostExactly(a.clause, b.clause);
    AtMostExactly(a.capture, b.capture);
    AtMostExactly(a.version, b.version);
  }

  /** A candidate with a distance stands before one without, the nearer before the farther, and equals by name. */
  ghost predicate InRankOrder(a: Candidate, b: Candidate) {
    && (a.distance.None? ==> b.distance.None?)
    && (a.distance.Some? && b.distance.Some? ==> a.distance.value <= b.distance.value)
    && (a.distance == b.distance ==> NamesInOrder(a.names, b.names))
  }

  lemma CandidatesInOrder(checks: Checks, docs: seq<Document>, r: Request, i: nat, j: nat)
    requires i < j < |BruteForce(checks, docs, r).candidates|
    ensures InRankOrder(BruteForce(checks, docs, r).candidates[i], BruteForce(checks, docs, r).candidates[j])
  {
    var a, b := BruteForce(checks, docs, r).candidates[i], BruteForce(checks, docs, r).candidates[j];
    CandidatesRanked(checks, docs, r);
    assert Ranked(a, b);
    NamesAtMostExactly(a.names, b.names);
  }

  /** The first clause is strictly nearer than the second, or as near and no later in name. */
  ghost predicate NearerOrSooner(checks: Checks, r: Request, a: Document, b: Document)
    requires checks.distance(r.query, a.embedding).Some? && checks.distance(r.query, b.embedding).Some?
  {
    var x, y := checks.distance(r.query, a.embedding).value, checks.distance(r.query, b.embedding).value;
    x < y || (x == y && NamesInOrder(a.names, b.names))
  }

  /** The candidate shows the document's own identity, context and rate. */
  ghost predicate Shows(c: Candidate, d: Document) {
    && c.scope == d.scope && c.names == d.names
    && c.equipment == d.equipment && c.route == d.route && c.service == d.service
    && c.rate == d.rate && c.currency == d.currency && c.rateUnit == d.rateUnit
    && c.embeddingVerified == d.embeddingVerified
  }

  /**
   * What is selected is the clause of a usable document, with its rate, and that document is the nearest of all
   * usable ones; of those equally near it comes first in name.
   */
  lemma SelectsNearest(checks: Checks, docs: seq<Document>, r: Request) returns (best: Document)
    requires BruteForce(checks, docs, r).selected.Some?
    ensures Usable(checks, docs, r, best) && Shows(BruteForce(checks, docs, r).selected.value, best)
    ensures BruteForce(checks, docs, r).selected.value.distance == checks.distance(r.query, best.embedding)
    ensures forall d :: Usable(checks, docs, r, d) ==> NearerOrSooner(checks, r, best, d)
  {
    best := SelectionIsLeast(checks, docs, r);
    forall d | Usable(checks, docs, r, d)
      ensures NearerOrSooner(checks, r, best, d)
    {
      assert Ranked(Evaluate(checks, best, r), Evaluate(checks, d, r));
      NamesAtMostExactly(best.names, d.names);
    }
  }

  function Scoped(checks: Checks, r: Request, c: Candidate): Document -> bool {
    (d: Document) => d.scope == r.scope && Evaluate(checks, d, r) == c
  }

  lemma {:induction false} EvaluationsCount(checks: Checks, docs: seq<Document>, r: Request, c: Candidate)
    ensures multiset(Evaluations(checks, Filter(InScope(r.scope), docs), r))[c] == |Filter(Scoped(checks, r, c), docs)|
  {
    if docs != [] {
      EvaluationsCount(checks, docs[1..], r, c);
      var rest := Filter(InScope(r.scope), docs[1..]);
      if docs[0].scope == r.scope {
        assert ([docs[0]] + rest)[1..] == rest;
      }
    }
  }

  /** Every document in scope is listed, as often as it is given. */
  lemma CandidatesCounted(checks: Checks, docs: seq<Document>, r: Request, c: Candidate)
    requires HasScope(r) && HasContext(r)
    ensures multiset(BruteForce(checks, docs, r).candidates)[c] == |Filter(Scoped(checks, r, c), docs)|
  {
    EvaluationsCount(checks, docs, r, c);
  }
}
