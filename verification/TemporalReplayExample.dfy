/** One sealed case, its replay then and now, and its current read after tampering. */
module TemporalReplayExample {
  import opened Wrappers
  import opened Sorting
  import opened Text
  import opened TemporalReplay
  import opened TemporalReplayLaws

  const X := Str("x")

  function Hex(): (h: string)
    ensures IsSha256(h) && !Blank(h) && RemovePrefix(h) == h
  {
    var h := seq(64, i => 'a');
    assert h[0] != PREFIX[0] && !IsSpace(h[0]);
    h
  }

  /** Manifests, tariff contents at rate one and all other objects have three different digests. */
  function Digest(value: Json): string {
    if !value.Object? then ""
    else if EvidenceList in value.fields then "m"
    else if Get(value.fields, RateAmount) == Int(1) then "c"
    else "d"
  }

  function Plain(value: Json): string {
    if value.Str? then value.s else ""
  }

  function Named(value: Json): Option<string> {
    if value.Str? then Some(value.s) else None
  }

  function Amount(value: Json): Option<real> {
    if value.Int? then Some(value.n as real) else None
  }

  function World(): Env {
    Env((s: string) => None, Digest, (s: string) => s, Plain, Named, Amount, (s: string) => true)
  }

  function ContentAt(rate: int): Fields {
    map[ClauseId := X, CaptureId := X, RateAmount := Int(rate), ClauseSha := Str(Hex()), SourceSha := Str(Hex())]
  }

  function Item(): Fields {
    map[EvidenceId := X, Content := Object(ContentAt(1)), ContentSha := Str(PREFIX + "c"), Kind := X,
        SourceTable := Str(TARIFF_CLAUSES), SourceId := X]
  }

  function Manifest(): Fields {
    map[ManifestVersion := Int(1), TenantId := X, CaseId := X, EvidenceList := List([Object(Item())])]
  }

  function RowAt(rate: int): Row {
    Row(X, X, Str(FILED), X, Str(PREFIX + "m"), Object(Manifest()), Int(1), X, Object(ContentAt(rate)), Bool(true),
        Str(PREFIX + "c"), X, Str(TARIFF_CLAUSES), X, X, X, Int(rate), X, Str(Hex()), Str(Hex()))
  }

  function HeadAt(): Head {
    Head("x", "x", FILED, "x", Manifest(), PREFIX + "m", [Object(Item())])
  }

  function TariffAt(rate: int): Tariff {
    Tariff(true, rate as real, rate as real, "x", Hex(), Hex(), Hex(), Hex(), Hash(World(), Object(ContentAt(rate))))
  }

  function ReplayAt(rate: int, historical: bool): Replay {
    Replay(Ask(X, X, None, historical), [RowAt(rate)], map["x" := Item()], RowAt(rate),
           ViewOf(World(), HeadAt(), TariffAt(rate), rate == 1))
  }

  lemma NotBlank()
    ensures !Blank("x") && !Blank(FILED) && !Blank(PREFIX + "m")
  {
    assert !IsSpace("x"[0]) && !IsSpace(FILED[0]) && !IsSpace((PREFIX + "m")[0]);
  }

  lemma ExampleHead(rate: int, historical: bool)
    ensures HeadOf(World(), ReplayAt(rate, historical).ask, RowAt(rate)) == Some(HeadAt())
  {
    NotBlank();
    assert CaseMatches(World(), ReplayAt(rate, historical).ask, RowAt(rate));
    assert SealMatches(World(), ReplayAt(rate, historical).ask, RowAt(rate));
  }

  lemma ExampleItems()
    ensures ItemsValid(World(), [Object(Item())]) && IsIndex(World(), [Object(Item())], map["x" := Item()])
  {
    var items := [Object(Item())];
    assert ItemId(World(), items[0]) == Some("x") && Mapping(World(), items[0]) == Some(Item());
  }

  lemma ExampleRows(rate: int)
    ensures RowsValid(World(), RowAt(rate), [RowAt(rate)], map["x" := Item()])
    ensures forall id :: id in map["x" := Item()] <==> Returned(World(), [RowAt(rate)], id)
    ensures Filter(IsTariff, [RowAt(rate)]) == [RowAt(rate)]
  {
    var rows := [RowAt(rate)];
    assert RowId(World(), rows[0]) == Some("x");
    FilterAll(IsTariff, rows);
  }

  lemma ExampleTariff(rate: int)
    ensures TariffOf(World(), RowAt(rate), ContentAt(rate)) == Some(TariffAt(rate))
  {
    NotBlank();
  }

  lemma Unprefixed(hex: string)
    ensures RemovePrefix(PREFIX + hex) == hex
  {
  }

  /** The row is bound to its item exactly at the sealed rate. */
  lemma ExampleBound(rate: int)
    requires RowsValid(World(), RowAt(rate), [RowAt(rate)], map["x" := Item()])
    ensures RowsBound(World(), RowAt(rate), [RowAt(rate)], map["x" := Item()]) <==> rate == 1
  {
    Unprefixed("d");
    var rows := [RowAt(rate)];
    assert Digest(Object(ContentAt(rate))) == if rate == 1 then "c" else "d";
    assert "c"[0] != "d"[0];
    assert RowBound(World(), RowAt(rate), rows[0], map["x" := Item()]) <==> rate == 1;
  }

  lemma ExampleEvidence(rate: int)
    ensures EvidenceValid(World(), RowAt(rate), [RowAt(rate)], [Object(Item())], map["x" := Item()], RowAt(rate))
  {
    ExampleItems();
    ExampleRows(rate);
  }

  lemma ExampleReplay(rate: int, historical: bool)
    requires historical ==> rate == 1
    ensures IsReplay(World(), ReplayAt(rate, historical))
  {
    ExampleHead(rate, historical);
    ExampleEvidence(rate);
    ExampleTariff(rate);
    ExampleRow(rate);
    ExampleIntact(rate);
  }

  /** Everything is bound exactly at the sealed rate. */
  lemma ExampleIntact(rate: int)
    requires RowsValid(World(), RowAt(rate), [RowAt(rate)], map["x" := Item()])
    ensures var h := HeadAt();
            (&& h.storedHash == Hash(World(), Object(h.manifest))
             && RowsBound(World(), RowAt(rate), [RowAt(rate)], map["x" := Item()])
             && TariffIntact(TariffAt(rate))) <==> rate == 1
  {
    ExampleBound(rate);
    assert Hash(World(), Object(Manifest())) == PREFIX + "m";
  }

  lemma ExampleDigests(rate: int)
    ensures NoCollision(World(), Object(ContentAt(1)), Object(ContentAt(rate)))
  {
    assert "c"[0] != "d"[0];
    assert Digest(Object(ContentAt(rate))) == if rate == 1 then "c" else "d";
  }

  lemma ExampleRow(rate: int)
    ensures RowId(World(), RowAt(rate)) == Some("x") && Mapping(World(), RowAt(rate).content) == Some(ContentAt(rate))
    ensures Get(Item(), Content) == Object(ContentAt(1))
  {
  }

  lemma ExampleContents(rate: int, historical: bool)
    requires IsReplay(World(), ReplayAt(rate, historical))
    ensures ContentsDistinct(World(), ReplayAt(rate, historical))
  {
    ExampleDigests(rate);
    ExampleRow(rate);
    var r := ReplayAt(rate, historical);
    assert r.rows == [RowAt(rate)] && r.index == map["x" := Item()];
  }

  lemma ExampleManifest(rate: int, historical: bool)
    requires IsReplay(World(), ReplayAt(rate, historical))
    ensures ManifestOf(World(), ReplayAt(rate, historical)) == Manifest()
  {
    ExampleHead(rate, historical);
  }

  lemma ExampleManifestsAlike(rate: int)
    requires IsReplay(World(), ReplayAt(1, true)) && IsReplay(World(), ReplayAt(rate, false))
    ensures NoCollision(World(), Object(ManifestOf(World(), ReplayAt(1, true))), Object(ManifestOf(World(), ReplayAt(rate, false))))
  {
    ExampleManifest(1, true);
    ExampleManifest(rate, false);
  }

  lemma ExampleTables(rate: int)
    ensures TableNamesAreText(World(), ReplayAt(rate, false).rows)
  {
    assert ReplayAt(rate, false).rows == [RowAt(rate)] && IsTariff(RowAt(rate));
  }

  /** Every hypothesis of the two match theorems is met by one sealed case, read again at any rate. */
  lemma HypothesesHold(rate: int)
    ensures IsReplay(World(), ReplayAt(1, true)) && IsReplay(World(), ReplayAt(rate, false))
    ensures DigestsTellApart(World(), ReplayAt(1, true), ReplayAt(rate, false))
    ensures TableNamesAreText(World(), ReplayAt(rate, false).rows)
  {
    ExampleTables(rate);
    ExampleReplay(1, true);
    ExampleReplay(rate, false);
    ExampleContents(1, true);
    ExampleContents(rate, false);
    ExampleManifestsAlike(rate);
  }

  /** The check of that case matches exactly at the rate that was sealed. */
  lemma MatchesExactlyUntampered(rate: int)
    ensures var response := BuildReplayResponse(ReplayAt(1, true).view, ReplayAt(rate, false).view);
            response.Some? && (response.value.matches <==> rate == 1)
  {
    assert Hash(World(), Object(Manifest())) == PREFIX + "m";
  }
}
