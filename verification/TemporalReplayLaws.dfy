/** What a matching tamper check proves about the evidence then and now. */
module TemporalReplayLaws {
  import opened Wrappers
  import opened Sorting
  import opened TemporalReplay

  /** The two values have different digests unless they are the same. */
  ghost predicate NoCollision(env: Env, a: Json, b: Json) {
    env.sha(env.canonical(a)) == env.sha(env.canonical(b)) ==> a == b
  }

  /** A validated result set: what was asked, what came back, and what was made of it. */
  datatype Replay = Replay(ask: Ask, rows: seq<Row>, index: ItemMap, tariff: Row, view: View)

  ghost predicate IsReplay(env: Env, r: Replay) {
    Replays(env, r.ask, r.rows, r.index, r.tariff, r.view)
  }

  ghost function ManifestOf(env: Env, r: Replay): Fields
    requires IsReplay(env, r)
  {
    HeadOf(env, r.ask, r.rows[0]).value.manifest
  }

  /** No row's content collides with another content of its manifest item. */
  ghost predicate ContentsDistinct(env: Env, r: Replay)
    requires IsReplay(env, r)
  {
    forall i :: 0 <= i < |r.rows| ==>
      NoCollision(env, Get(r.index[RowId(env, r.rows[i]).value], Content), Object(Mapping(env, r.rows[i].content).value))
  }

  /** Among the rows, only the text `tariff_clauses` itself reads as `tariff_clauses`. */
  ghost predicate TableNamesAreText(env: Env, rows: seq<Row>) {
    forall i :: 0 <= i < |rows| && env.text(rows[i].sourceTable) == env.text(Str(TARIFF_CLAUSES)) ==> IsTariff(rows[i])
  }

  /** The digests tell apart the values compared when two replays are: the two manifests, and each row's contents. */
  ghost predicate DigestsTellApart(env: Env, a: Replay, b: Replay)
    requires IsReplay(env, a) && IsReplay(env, b)
  {
    && ContentsDistinct(env, a) && ContentsDistinct(env, b)
    && NoCollision(env, Object(ManifestOf(env, a)), Object(ManifestOf(env, b)))
  }

  /** The row carries its manifest item's content, kind and source, and is sealed. */
  ghost predicate Sealed(env: Env, r: Replay, row: Row) {
    && RowId(env, row).Some? && RowId(env, row).value in r.index
    && var item := r.index[RowId(env, row).value];
    && row.sealedFlag == Bool(true)
    && Mapping(env, row.content).Some?
    && Get(item, Content) == Object(Mapping(env, row.content).value)
    && env.text(Get(item, Kind)) == env.text(row.kind)
    && env.text(Get(item, SourceTable)) == env.text(row.sourceTable)
    && env.text(Get(item, SourceId)) == env.text(row.sourceId)
  }

  /** The returned rows are the manifest's items, no more and no fewer, each as it was sealed. */
  ghost predicate ItemsAreRows(env: Env, r: Replay) {
    && (forall id :: id in r.index <==> Returned(env, r.rows, id))
    && (forall i, j :: 0 <= i < j < |r.rows| ==> RowId(env, r.rows[i]) != RowId(env, r.rows[j]))
    && (forall i :: 0 <= i < |r.rows| ==> Sealed(env, r, r.rows[i]))
  }

  lemma IntactRowIsSealed(env: Env, r: Replay, i: nat)
    requires IsReplay(env, r) && r.view.intact && ContentsDistinct(env, r)
    requires i < |r.rows|
    ensures Sealed(env, r, r.rows[i])
  {
    assert RowBound(env, r.rows[0], r.rows[i], r.index);
    var item := r.index[RowId(env, r.rows[i]).value];
    var content := Object(Mapping(env, r.rows[i].content).value);
    assert NoCollision(env, Get(item, Content), content);
  }

  /** Intact bindings: the manifest hashes to the stored hash, and the rows are its items, each as it was sealed. */
  lemma IntactMeansSealed(env: Env, r: Replay)
    requires IsReplay(env, r) && r.view.intact && ContentsDistinct(env, r)
    ensures r.view.storedHash == Hash(env, Object(ManifestOf(env, r)))
    ensures ItemsAreRows(env, r)
  {
    forall i | 0 <= i < |r.rows|
      ensures Sealed(env, r, r.rows[i])
    {
      IntactRowIsSealed(env, r, i);
    }
  }

  lemma OnlyTariff(rows: seq<Row>, tariff: Row, row: Row)
    requires Filter(IsTariff, rows) == [tariff]
    ensures row in rows && IsTariff(row) <==> row == tariff
  {
    FilterMembers(IsTariff, rows);
    assert row in Filter(IsTariff, rows) <==> row == tariff;
  }

  lemma SameManifestSameIndex(env: Env, a: Replay, b: Replay)
    requires IsReplay(env, a) && IsReplay(env, b)
    requires ManifestOf(env, a) == ManifestOf(env, b)
    ensures a.index == b.index
  {
    IndexUnique(env, HeadOf(env, a.ask, a.rows[0]).value.items, a.index, b.index);
  }

  lemma SameIdSameContent(env: Env, a: Replay, b: Replay, x: Row, y: Row)
    requires Sealed(env, a, x) && Sealed(env, b, y)
    requires a.index == b.index && RowId(env, x) == RowId(env, y)
    ensures Mapping(env, x.content) == Mapping(env, y.content)
    ensures env.text(x.sourceTable) == env.text(y.sourceTable)
  {
  }

  /** The same content stands under every evidence id, then and now. */
  ghost predicate SameContents(env: Env, a: Replay, b: Replay) {
    forall i, j ::
      (0 <= i < |a.rows| && 0 <= j < |b.rows| && RowId(env, a.rows[i]) == RowId(env, b.rows[j]))
      ==> Mapping(env, a.rows[i].content) == Mapping(env, b.rows[j].content)
  }

  lemma SameIndexSameContents(env: Env, a: Replay, b: Replay)
    requires ItemsAreRows(env, a) && ItemsAreRows(env, b) && a.index == b.index
    ensures SameContents(env, a, b)
  {
    forall i, j | 0 <= i < |a.rows| && 0 <= j < |b.rows| && RowId(env, a.rows[i]) == RowId(env, b.rows[j])
      ensures Mapping(env, a.rows[i].content) == Mapping(env, b.rows[j].content)
    {
      SameIdSameContent(env, a, b, a.rows[i], b.rows[j]);
    }
  }

  /** The tariff row of one replay is found under its id in the other, and is the tariff row there too. */
  lemma SameTariffContent(env: Env, a: Replay, b: Replay)
    requires TableNamesAreText(env, b.rows)
    requires ItemsAreRows(env, a) && ItemsAreRows(env, b) && a.index == b.index
    requires Filter(IsTariff, a.rows) == [a.tariff] && Filter(IsTariff, b.rows) == [b.tariff]
    ensures Mapping(env, a.tariff.content) == Mapping(env, b.tariff.content)
  {
    OnlyTariff(a.rows, a.tariff, a.tariff);
    var i :| 0 <= i < |a.rows| && a.rows[i] == a.tariff;
    assert Sealed(env, a, a.rows[i]);
    var id := RowId(env, a.tariff).value;
    assert Returned(env, b.rows, id);
    var j :| 0 <= j < |b.rows| && RowId(env, b.rows[j]) == Some(id);
    SameIdSameContent(env, a, b, a.tariff, b.rows[j]);
    OnlyTariff(b.rows, b.tariff, b.rows[j]);
  }

  /** The view's rate and hashes are those of the sealed tariff content. */
  ghost predicate ViewIsSealed(env: Env, r: Replay) {
    && Filter(IsTariff, r.rows) == [r.tariff]
    && Mapping(env, r.tariff.content).Some?
    && var content := Mapping(env, r.tariff.content).value;
    && r.view.rate == r.view.sealedRate && Some(r.view.rate) == env.decimal(Get(content, RateAmount))
    && Some(r.view.clauseSha) == Sha256(env, Get(content, ClauseSha))
    && Some(r.view.sourceSha) == Sha256(env, Get(content, SourceSha))
    && r.view.sealedContentSha == Hash(env, Object(content))
  }

  lemma IntactTariff(env: Env, r: Replay)
    requires IsReplay(env, r) && r.view.intact
    ensures ViewIsSealed(env, r)
  {
  }

  ghost predicate Agree(a: View, b: View) {
    && a.rate == b.rate && a.sealedRate == b.sealedRate && a.rate == b.sealedRate
    && a.clauseSha == b.clauseSha && a.sourceSha == b.sourceSha && a.sealedContentSha == b.sealedContentSha
  }

  lemma SealedViewsAgree(env: Env, a: Replay, b: Replay)
    requires TableNamesAreText(env, b.rows)
    requires ItemsAreRows(env, a) && ItemsAreRows(env, b) && a.index == b.index
    requires ViewIsSealed(env, a) && ViewIsSealed(env, b)
    ensures Agree(a.view, b.view)
  {
    SameTariffContent(env, a, b);
  }

  lemma SameManifestAgrees(env: Env, a: Replay, b: Replay)
    requires IsReplay(env, a) && IsReplay(env, b) && a.view.intact && b.view.intact
    requires ContentsDistinct(env, a) && ContentsDistinct(env, b) && TableNamesAreText(env, b.rows)
    requires ManifestOf(env, a) == ManifestOf(env, b)
    ensures Agree(a.view, b.view)
  {
    SameManifestSameIndex(env, a, b);
    IntactMeansSealed(env, a);
    IntactMeansSealed(env, b);
    IntactTariff(env, a);
    IntactTariff(env, b);
    SealedViewsAgree(env, a, b);
  }

  /**
   * The check matches exactly when the current bindings are intact, the manifest is the one that was sealed and the
   * tariff version still has its name; the rate and hash comparisons follow from these.
   */
  lemma MatchExactly(env: Env, sealing: Replay, current: Replay)
    requires IsReplay(env, sealing) && IsReplay(env, current) && sealing.ask.historical
    requires DigestsTellApart(env, sealing, current) && TableNamesAreText(env, current.rows)
    requires BuildReplayResponse(sealing.view, current.view).Some?
    ensures BuildReplayResponse(sealing.view, current.view).value.matches <==>
            && current.view.intact
            && ManifestOf(env, sealing) == ManifestOf(env, current)
            && sealing.view.version == current.view.version
  {
    var same := ManifestOf(env, sealing) == ManifestOf(env, current);
    HashesOfView(env, sealing);
    HashesOfView(env, current);
    HashExactly(env, Object(ManifestOf(env, sealing)), Object(ManifestOf(env, current)));
    if current.view.intact && same {
      SameManifestAgrees(env, sealing, current);
    }
    MatchOfViews(sealing.view, current.view, same);
  }

  lemma HashesOfView(env: Env, r: Replay)
    requires IsReplay(env, r)
    ensures r.view.recomputedHash == Hash(env, Object(ManifestOf(env, r)))
    ensures r.view.intact ==> r.view.storedHash == r.view.recomputedHash
  {
  }

  lemma HashExactly(env: Env, a: Json, b: Json)
    requires NoCollision(env, a, b)
    ensures Hash(env, a) == Hash(env, b) <==> a == b
  {
    assert Hash(env, a)[|PREFIX|..] == env.sha(env.canonical(a));
    assert Hash(env, b)[|PREFIX|..] == env.sha(env.canonical(b));
  }

  /** The comparison of the views, given that the hashes agree exactly for the same manifest. */
  lemma MatchOfViews(sealing: View, current: View, same: bool)
    requires BuildReplayResponse(sealing, current).Some?
    requires sealing.storedHash == current.recomputedHash <==> same
    requires current.intact && same ==> Agree(sealing, current)
    ensures BuildReplayResponse(sealing, current).value.matches <==>
            current.intact && same && sealing.version == current.version
  {
  }

  /**
   * A match certifies the evidence: one manifest then and now, current rows that are exactly its items, each sealed
   * with its content, the same content under the same id then and now, and the same rate and hashes.
   */
  lemma MatchCertifies(env: Env, sealing: Replay, current: Replay)
    requires IsReplay(env, sealing) && IsReplay(env, current) && sealing.ask.historical
    requires DigestsTellApart(env, sealing, current) && TableNamesAreText(env, current.rows)
    requires BuildReplayResponse(sealing.view, current.view).Some?
    requires BuildReplayResponse(sealing.view, current.view).value.matches
    ensures ManifestOf(env, sealing) == ManifestOf(env, current) && sealing.index == current.index
    ensures ItemsAreRows(env, current)
    ensures SameContents(env, sealing, current)
    ensures Agree(sealing.view, current.view)
  {
    assert current.view.intact && ManifestOf(env, sealing) == ManifestOf(env, current) by {
      MatchExactly(env, sealing, current);
    }
    SameManifestSameIndex(env, sealing, current);
    IntactMeansSealed(env, sealing);
    IntactMeansSealed(env, current);
    SameIndexSameContents(env, sealing, current);
    SameManifestAgrees(env, sealing, current);
  }
}
