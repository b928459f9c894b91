/** Seal-time replay: two result sets, each validated against its hashed manifest (src/core/temporal_replay.py). */
module TemporalReplay {
  import opened Wrappers
  import opened Sorting
  import opened Text

  /** Field names of the JSON objects that are read. */
  datatype Name = ManifestVersion | TenantId | CaseId | EvidenceList | EvidenceId | Content | ContentSha | Kind
    | SourceTable | SourceId | ClauseId | CaptureId | RateAmount | ClauseSha | SourceSha | OtherName(name: string)

  /** A float stands for itself by its shortest decimal text, the one JSON writes. */
  datatype Json = Null | Bool(b: bool) | Int(n: int) | Float(shortest: string) | Str(s: string) | List(items: seq<Json>)
    | Object(fields: map<Name, Json>)

  type Fields = map<Name, Json>

  /** One joined case and evidence row; a missing column reads as `Null`. */
  datatype Row = Row(
    tenantId: Json, caseId: Json, caseState: Json, sealedAt: Json, evidenceHash: Json, manifest: Json,
    manifestVersion: Json, evidenceId: Json, content: Json, sealedFlag: Json, contentSha: Json, kind: Json,
    sourceTable: Json, sourceId: Json, clauseId: Json, snapshotId: Json, tariffRate: Json, versionLabel: Json,
    clauseSha: Json, snapshotSha: Json)

  /** JSON parsing, canonical JSON, the digest, and the readings of values as text, UUIDs, decimals and timestamps. */
  datatype Env = Env(
    parse: string -> Option<Json>, canonical: Json -> string, sha: string -> string, text: Json -> string,
    uuid: Json -> Option<string>, decimal: Json -> Option<real>, isHlc: string -> bool)

  datatype Ask = Ask(tenant: Json, caseId: Json, hlc: Option<Json>, historical: bool)

  datatype View = View(
    tenant: string, caseId: string, state: string, sealedAt: string, rate: real, version: string, storedHash: string,
    recomputedHash: string, sealedRate: real, sealedContentSha: string, clauseSha: string, sourceSha: string,
    intact: bool)

  const PREFIX := "sha256:"
  const FILED := "FILED"
  const CONTESTED := "CONTESTED"
  const RESOLVED := "RESOLVED"
  const TARIFF_CLAUSES := "tariff_clauses"

  // Readings

  function Get(m: Fields, name: Name): Json {
    if name in m then m[name] else Null
  }

  function Mapping(env: Env, value: Json): Option<Fields> {
    var read := if value.Str? then env.parse(value.s) else Some(value);
    if read.Some? && read.value.Object? then Some(read.value.fields) else None
  }

  function RequiredText(env: Env, value: Json): Option<string> {
    if value == Null || Blank(env.text(value)) then None else Some(env.text(value))
  }

  predicate IsOne(value: Json) {
    value == Int(1) || value == Float("1.0") || value == Bool(true)
  }

  function Hash(env: Env, value: Json): string {
    PREFIX + env.sha(env.canonical(value))
  }

  function RemovePrefix(text: string): string {
    if PREFIX <= text then text[|PREFIX|..] else text
  }

  predicate IsHash(stored: string, computed: string) {
    stored == computed || stored == RemovePrefix(computed)
  }

  predicate IsSha256(text: string) {
    |text| == 64 && forall i :: 0 <= i < 64 ==> '0' <= text[i] <= '9' || 'a' <= text[i] <= 'f'
  }

  function Sha256(env: Env, value: Json): Option<string> {
    var text := RequiredText(env, value);
    if text.Some? && IsSha256(RemovePrefix(text.value)) then Some(RemovePrefix(text.value)) else None
  }

  function Hlc(env: Env, value: Json): Option<string> {
    if env.isHlc(env.text(value)) then Some(env.text(value)) else None
  }

  // The case and its manifest

  datatype Head = Head(
    tenant: string, caseId: string, state: string, sealedAt: string, manifest: Fields, storedHash: string,
    items: seq<Json>)

  predicate CaseMatches(env: Env, ask: Ask, first: Row) {
    && env.uuid(first.tenantId).Some? && env.uuid(first.tenantId) == env.uuid(ask.tenant)
    && env.uuid(first.caseId).Some? && env.uuid(first.caseId) == env.uuid(ask.caseId)
  }

  predicate SealMatches(env: Env, ask: Ask, first: Row) {
    var state := RequiredText(env, first.caseState);
    && state.Some? && state.value in [FILED, CONTESTED, RESOLVED]
    && (ask.historical ==> state.value == FILED)
    && Hlc(env, first.sealedAt).Some?
    && (ask.hlc.Some? ==> Hlc(env, ask.hlc.value) == Hlc(env, first.sealedAt))
    && IsOne(first.manifestVersion)
    && RequiredText(env, first.evidenceHash).Some?
  }

  predicate ManifestMatches(env: Env, first: Row, m: Fields) {
    && IsOne(Get(m, ManifestVersion))
    && env.uuid(Get(m, TenantId)).Some? && env.uuid(Get(m, TenantId)) == env.uuid(first.tenantId)
    && env.uuid(Get(m, CaseId)).Some? && env.uuid(Get(m, CaseId)) == env.uuid(first.caseId)
    && Get(m, EvidenceList).List? && Get(m, EvidenceList).items != []
  }

  /** Everything checked on the first row alone. */
  function HeadOf(env: Env, ask: Ask, first: Row): Option<Head> {
    if !CaseMatches(env, ask, first) || !SealMatches(env, ask, first) then None
    else match Mapping(env, first.manifest)
      case None => None
      case Some(m) =>
        if !ManifestMatches(env, first, m) then None
        else Some(Head(env.uuid(first.tenantId).value, env.uuid(first.caseId).value, env.text(first.caseState),
                       env.text(first.sealedAt), m, env.text(first.evidenceHash), Get(m, EvidenceList).items))
  }

  function ItemId(env: Env, item: Json): Option<string> {
    match Mapping(env, item)
    case None => None
    case Some(m) => env.uuid(Get(m, EvidenceId))
  }

  type ItemMap = map<string, Fields>

  /** Every item names its evidence, and no two the same. */
  ghost predicate ItemsValid(env: Env, items: seq<Json>) {
    && (forall i :: 0 <= i < |items| ==> ItemId(env, items[i]).Some?)
    && (forall i, j :: 0 <= i < j < |items| ==> ItemId(env, items[i]) != ItemId(env, items[j]))
  }

  ghost predicate Listed(env: Env, items: seq<Json>, id: string, m: Fields) {
    exists i :: 0 <= i < |items| && ItemId(env, items[i]) == Some(id) && Mapping(env, items[i]) == Some(m)
  }

  ghost predicate IsIndex(env: Env, items: seq<Json>, index: ItemMap) {
    forall id, m :: id in index && index[id] == m <==> Listed(env, items, id, m)
  }

  lemma IndexUnique(env: Env, items: seq<Json>, a: ItemMap, b: ItemMap)
    requires IsIndex(env, items, a) && IsIndex(env, items, b)
    ensures a == b
  {
    forall id
      ensures id in a <==> id in b
      ensures id in a && id in b ==> a[id] == b[id]
    {
      if id in a {
        assert Listed(env, items, id, a[id]);
      }
      if id in b {
        assert Listed(env, items, id, b[id]);
      }
    }
  }

  lemma ListedSnoc(env: Env, items: seq<Json>, item: Json, id: string, m: Fields)
    ensures Listed(env, items + [item], id, m) <==>
            Listed(env, items, id, m) || (ItemId(env, item) == Some(id) && Mapping(env, item) == Some(m))
  {
    if Listed(env, items, id, m) {
      var i :| 0 <= i < |items| && ItemId(env, items[i]) == Some(id) && Mapping(env, items[i]) == Some(m);
      assert (items + [item])[i] == items[i];
    }
    if ItemId(env, item) == Some(id) && Mapping(env, item) == Some(m) {
      assert (items + [item])[|items|] == item;
    }
  }

  lemma IndexKeys(env: Env, items: seq<Json>, index: ItemMap, id: string)
    requires IsIndex(env, items, index)
    ensures id in index <==> exists i :: 0 <= i < |items| && ItemId(env, items[i]) == Some(id)
  {
    if id in index {
      assert Listed(env, items, id, index[id]);
    }
    if i :| 0 <= i < |items| && ItemId(env, items[i]) == Some(id) {
      assert Listed(env, items, id, Mapping(env, items[i]).value);
    }
  }

  lemma IndexSnoc(env: Env, items: seq<Json>, index: ItemMap, item: Json)
    requires IsIndex(env, items, index)
    requires ItemId(env, item).Some? && ItemId(env, item).value !in index
    ensures IsIndex(env, items + [item], index[ItemId(env, item).value := Mapping(env, item).value])
  {
    var more := index[ItemId(env, item).value := Mapping(env, item).value];
    forall id, m
      ensures id in more && more[id] == m <==> Listed(env, items + [item], id, m)
    {
      ListedSnoc(env, items, item, id, m);
      assert id in index && index[id] == m <==> Listed(env, items, id, m);
    }
  }

  /** The manifest items by evidence id, or nothing when an item is unreadable or repeated. */
  method ReadManifest(env: Env, items: seq<Json>) returns (index: Option<ItemMap>)
    ensures index.Some? <==> ItemsValid(env, items)
    ensures index.Some? ==> IsIndex(env, items, index.value)
  {
    var found: ItemMap := map[];
    for k := 0 to |items|
      invariant ItemsValid(env, items[..k])
      invariant IsIndex(env, items[..k], found)
    {
      assert items[..k + 1] == items[..k] + [items[k]];
      var item := Mapping(env, items[k]);
      if item.None? || env.uuid(Get(item.value, EvidenceId)).None? {
        assert ItemId(env, items[k]).None?;
        return None;
      }
      var id := env.uuid(Get(item.value, EvidenceId)).value;
      assert ItemId(env, items[k]) == Some(id);
      IndexKeys(env, items[..k], found, id);
      if id in found {
        var i :| 0 <= i < |items[..k]| && ItemId(env, items[..k][i]) == Some(id);
        assert ItemId(env, items[i]) == ItemId(env, items[k]);
        return None;
      }
      IndexSnoc(env, items[..k], found, items[k]);
      found := found[id := item.value];
      assert ItemsValid(env, items[..k + 1]) by {
        forall i | 0 <= i < k
          ensures ItemId(env, items[i]) != ItemId(env, items[k])
        {
          assert items[..k][i] == items[i];
        }
      }
    }
    assert items[..|items|] == items;
    index := Some(found);
  }

  // The evidence rows

  predicate Consistent(env: Env, first: Row, row: Row) {
    && env.canonical(row.tenantId) == env.canonical(first.tenantId)
    && env.canonical(row.caseId) == env.canonical(first.caseId)
    && env.canonical(row.caseState) == env.canonical(first.caseState)
    && env.canonical(row.sealedAt) == env.canonical(first.sealedAt)
    && env.canonical(row.evidenceHash) == env.canonical(first.evidenceHash)
    && env.canonical(row.manifest) == env.canonical(first.manifest)
    && env.canonical(row.manifestVersion) == env.canonical(first.manifestVersion)
  }

  function RowId(env: Env, row: Row): Option<string> {
    env.uuid(row.evidenceId)
  }

  predicate RowValid(env: Env, first: Row, row: Row, index: ItemMap) {
    && Consistent(env, first, row)
    && RowId(env, row).Some? && RowId(env, row).value in index
    && Mapping(env, row.content).Some?
  }

  /** The row is sealed and says exactly what its manifest item says. */
  predicate Bound(env: Env, row: Row, item: Fields, content: Fields) {
    var computed := Hash(env, Object(content));
    && row.sealedFlag == Bool(true)
    && row.contentSha.Str? && IsHash(row.contentSha.s, computed)
    && env.canonical(Get(item, Content)) == env.canonical(Object(content))
    && IsHash(env.text(Get(item, ContentSha)), computed)
    && env.text(Get(item, Kind)) == env.text(row.kind)
    && env.text(Get(item, SourceTable)) == env.text(row.sourceTable)
    && env.text(Get(item, SourceId)) == env.text(row.sourceId)
  }

  predicate RowBound(env: Env, first: Row, row: Row, index: ItemMap)
    requires RowValid(env, first, row, index)
  {
    Bound(env, row, index[RowId(env, row).value], Mapping(env, row.content).value)
  }

  predicate IsTariff(row: Row) {
    row.sourceTable == Str(TARIFF_CLAUSES)
  }

  ghost predicate Returned(env: Env, rows: seq<Row>, id: string) {
    exists i :: 0 <= i < |rows| && RowId(env, rows[i]) == Some(id)
  }

  ghost predicate RowsValid(env: Env, first: Row, rows: seq<Row>, index: ItemMap) {
    && (forall i :: 0 <= i < |rows| ==> RowValid(env, first, rows[i], index))
    && (forall i, j :: 0 <= i < j < |rows| ==> RowId(env, rows[i]) != RowId(env, rows[j]))
  }

  ghost predicate RowsBound(env: Env, first: Row, rows: seq<Row>, index: ItemMap)
    requires RowsValid(env, first, rows, index)
  {
    forall i :: 0 <= i < |rows| ==> RowBound(env, first, rows[i], index)
  }

  datatype Scan = Scan(returned: set<string>, intact: bool, tariffs: seq<Row>)

  ghost predicate IsScan(env: Env, first: Row, rows: seq<Row>, index: ItemMap, intact: bool, scan: Scan)
    requires RowsValid(env, first, rows, index)
  {
    && (forall id :: id in scan.returned <==> Returned(env, rows, id))
    && (scan.intact <==> intact && RowsBound(env, first, rows, index))
    && scan.tariffs == Filter(IsTariff, rows)
  }

  lemma ScanSnoc(env: Env, first: Row, rows: seq<Row>, row: Row, index: ItemMap, intact: bool, scan: Scan)
    requires RowsValid(env, first, rows, index) && IsScan(env, first, rows, index, intact, scan)
    requires RowValid(env, first, row, index) && RowId(env, row).value !in scan.returned
    ensures RowsValid(env, first, rows + [row], index)
    ensures IsScan(env, first, rows + [row], index, intact,
                   Scan(scan.returned + {RowId(env, row).value}, scan.intact && RowBound(env, first, row, index),
                        scan.tariffs + if IsTariff(row) then [row] else []))
  {
    var more := rows + [row];
    ValidSnoc(env, first, rows, row, index, scan.returned);
    forall id
      ensures Returned(env, more, id) <==> Returned(env, rows, id) || RowId(env, row) == Some(id)
    {
      ReturnedSnoc(env, rows, row, id);
    }
    BoundSnoc(env, first, rows, row, index);
    FilterConcat(IsTariff, rows, [row]);
  }

  lemma ValidSnoc(env: Env, first: Row, rows: seq<Row>, row: Row, index: ItemMap, returned: set<string>)
    requires RowsValid(env, first, rows, index) && RowValid(env, first, row, index)
    requires RowId(env, row).value !in returned && forall id :: id in returned <==> Returned(env, rows, id)
    ensures RowsValid(env, first, rows + [row], index)
  {
    forall i | 0 <= i < |rows|
      ensures RowId(env, rows[i]) != RowId(env, row)
    {
      assert Returned(env, rows, RowId(env, rows[i]).value);
    }
  }

  lemma BoundSnoc(env: Env, first: Row, rows: seq<Row>, row: Row, index: ItemMap)
    requires RowsValid(env, first, rows, index) && RowsValid(env, first, rows + [row], index)
    requires RowValid(env, first, row, index)
    ensures RowsBound(env, first, rows + [row], index) <==>
            RowsBound(env, first, rows, index) && RowBound(env, first, row, index)
  {
    var more := rows + [row];
    assert more[|rows|] == row;
    assert forall i :: 0 <= i < |rows| ==> more[i] == rows[i];
  }

  lemma ReturnedSnoc(env: Env, rows: seq<Row>, row: Row, id: string)
    ensures Returned(env, rows + [row], id) <==> Returned(env, rows, id) || RowId(env, row) == Some(id)
  {
    if Returned(env, rows, id) {
      var i :| 0 <= i < |rows| && RowId(env, rows[i]) == Some(id);
      assert (rows + [row])[i] == rows[i];
    }
    if RowId(env, row) == Some(id) {
      assert (rows + [row])[|rows|] == row;
    }
  }

  method CheckRows(env: Env, first: Row, rows: seq<Row>, index: ItemMap, intact: bool) returns (scan: Option<Scan>)
    ensures scan.Some? <==> RowsValid(env, first, rows, index)
    ensures scan.Some? ==> IsScan(env, first, rows, index, intact, scan.value)
  {
    var so := Scan({}, intact, []);
    for k := 0 to |rows|
      invariant RowsValid(env, first, rows[..k], index)
      invariant IsScan(env, first, rows[..k], index, intact, so)
    {
      var row := rows[k];
      assert rows[..k + 1] == rows[..k] + [row];
      if !RowValid(env, first, row, index) {
        return None;
      }
      var id := RowId(env, row).value;
      if id in so.returned {
        assert Returned(env, rows[..k], id);
        var i :| 0 <= i < |rows[..k]| && RowId(env, rows[..k][i]) == Some(id);
        assert RowId(env, rows[i]) == RowId(env, rows[k]);
        return None;
      }
      ScanSnoc(env, first, rows[..k], row, index, intact, so);
      so := Scan(so.returned + {id}, so.intact && RowBound(env, first, row, index),
                 so.tariffs + if IsTariff(row) then [row] else []);
    }
    assert rows[..|rows|] == rows;
    scan := Some(so);
  }

  // The tariff row

  datatype Tariff = Tariff(
    sourceBound: bool, rate: real, sealedRate: real, version: string, clauseSha: string, sourceSha: string,
    sealedClauseSha: string, sealedSourceSha: string, contentSha: string)

  function SourceBound(env: Env, row: Row, content: Fields): Option<bool> {
    var source, clause, snapshot := env.uuid(row.sourceId), env.uuid(row.clauseId), env.uuid(row.snapshotId);
    var contentClause, capture := env.uuid(Get(content, ClauseId)), env.uuid(Get(content, CaptureId));
    if source.None? || clause.None? || snapshot.None? || contentClause.None? || capture.None? then None
    else Some(source == clause == contentClause && snapshot == capture)
  }

  function TariffOf(env: Env, row: Row, content: Fields): Option<Tariff> {
    var bound := SourceBound(env, row, content);
    var rate, sealedRate := env.decimal(row.tariffRate), env.decimal(Get(content, RateAmount));
    var version := RequiredText(env, row.versionLabel);
    var clause, source := Sha256(env, row.clauseSha), Sha256(env, row.snapshotSha);
    var sealedClause, sealedSource := Sha256(env, Get(content, ClauseSha)), Sha256(env, Get(content, SourceSha));
    if bound.None? || rate.None? || sealedRate.None? || version.None? || clause.None? || source.None?
       || sealedClause.None? || sealedSource.None? then None
    else Some(Tariff(bound.value, rate.value, sealedRate.value, version.value, clause.value, source.value,
                     sealedClause.value, sealedSource.value, Hash(env, Object(content))))
  }

  predicate TariffIntact(t: Tariff) {
    t.sourceBound && t.rate == t.sealedRate && t.clauseSha == t.sealedClauseSha && t.sourceSha == t.sealedSourceSha
  }

  function ViewOf(env: Env, h: Head, t: Tariff, intact: bool): View {
    View(h.tenant, h.caseId, h.state, h.sealedAt, t.rate, t.version, h.storedHash, Hash(env, Object(h.manifest)),
         t.sealedRate, t.contentSha, t.clauseSha, t.sourceSha, intact)
  }

  // The whole validation

  /** The evidence rows are exactly the manifest's items, and one of them is the tariff row. */
  ghost predicate EvidenceValid(env: Env, first: Row, rows: seq<Row>, items: seq<Json>, index: ItemMap, tariff: Row) {
    && ItemsValid(env, items) && IsIndex(env, items, index)
    && RowsValid(env, first, rows, index)
    && (forall id :: id in index <==> Returned(env, rows, id))
    && Filter(IsTariff, rows) == [tariff]
    && Mapping(env, tariff.content).Some?
  }

  /** `v` is the view of `rows`, with its manifest items by id and its tariff row. */
  ghost predicate Replays(env: Env, ask: Ask, rows: seq<Row>, index: ItemMap, tariff: Row, v: View) {
    && rows != []
    && HeadOf(env, ask, rows[0]).Some?
    && var h := HeadOf(env, ask, rows[0]).value;
    && EvidenceValid(env, rows[0], rows, h.items, index, tariff)
    && var t := TariffOf(env, tariff, Mapping(env, tariff.content).value);
    && t.Some?
    && v == ViewOf(env, h, t.value, h.storedHash == Hash(env, Object(h.manifest))
                                    && RowsBound(env, rows[0], rows, index) && TariffIntact(t.value))
    && (ask.historical ==> v.intact)
  }

  // The same in terms of the rows' fields

  /** What equals the number one: the integer, the float and `true`. */
  ghost predicate IsNumberOne(value: Json) {
    value in {Int(1), Float("1.0"), Bool(true)}
  }

  /** What every row repeats about the case. */
  function CaseFields(row: Row): seq<Json> {
    [row.tenantId, row.caseId, row.caseState, row.sealedAt, row.evidenceHash, row.manifest, row.manifestVersion]
  }

  ghost predicate SameCase(env: Env, a: Row, b: Row) {
    forall k :: 0 <= k < 7 ==> env.canonical(CaseFields(a)[k]) == env.canonical(CaseFields(b)[k])
  }

  /** The rows are of one case and are exactly the manifest's items, and exactly one of them is from the tariff clauses. */
  ghost predicate ShowsEvidence(env: Env, rows: seq<Row>, items: seq<Json>, index: ItemMap, tariff: Row)
    requires rows != []
  {
    && ItemsValid(env, items) && IsIndex(env, items, index)
    && ShowsRows(env, rows, index) && BringsAll(env, rows, index)
    && (exists k :: 0 <= k < |rows| && rows[k] == tariff && OnlyTariffAt(rows, k))
  }

  ghost predicate OnlyTariffAt(rows: seq<Row>, k: nat) {
    forall i :: 0 <= i < |rows| ==> (rows[i].sourceTable == Str("tariff_clauses") <==> i == k)
  }

  lemma OnlyTariffExactly(rows: seq<Row>, tariff: Row)
    ensures Filter(IsTariff, rows) == [tariff] <==> exists k :: 0 <= k < |rows| && rows[k] == tariff && OnlyTariffAt(rows, k)
  {
    if k :| 0 <= k < |rows| && rows[k] == tariff && OnlyTariffAt(rows, k) {
      FilterOne(rows, k);
    }
    if Filter(IsTariff, rows) == [tariff] {
      FilterMembers(IsTariff, rows);
      assert tariff in Filter(IsTariff, rows);
      var k :| 0 <= k < |rows| && rows[k] == tariff;
      forall i | 0 <= i < |rows|
        ensures rows[i].sourceTable == Str("tariff_clauses") <==> i == k
      {
        if IsTariff(rows[i]) && i != k {
          TwoTariffs(rows, i, k);
        }
      }
    }
  }

  lemma {:induction false} FilterOne(rows: seq<Row>, k: nat)
    requires k < |rows| && OnlyTariffAt(rows, k)
    ensures Filter(IsTariff, rows) == [rows[k]]
  {
    if k == 0 {
      FilterEmpty(IsTariff, rows[1..]);
      forall x | x in rows[1..]
        ensures !IsTariff(x)
      {
        var i :| 0 <= i < |rows| - 1 && rows[1..][i] == x;
        assert rows[i + 1] == x;
      }
    } else {
      forall i | 0 <= i < |rows| - 1
        ensures rows[1..][i].sourceTable == Str("tariff_clauses") <==> i == k - 1
      {
        assert rows[1..][i] == rows[i + 1];
      }
      FilterOne(rows[1..], k - 1);
    }
  }

  lemma TwoTariffs(rows: seq<Row>, i: nat, k: nat)
    requires i < |rows| && k < |rows| && i != k && IsTariff(rows[i]) && IsTariff(rows[k])
    ensures |Filter(IsTariff, rows)| >= 2
  {
    var a, b := if i < k then i else k, if i < k then k else i;
    assert rows == rows[..b] + rows[b..];
    FilterConcat(IsTariff, rows[..b], rows[b..]);
    FilterMembers(IsTariff, rows[..b]);
    FilterMembers(IsTariff, rows[b..]);
    assert rows[..b][a] in Filter(IsTariff, rows[..b]);
    assert rows[b..][0] in Filter(IsTariff, rows[b..]);
  }

  /** Every row repeats the first one's case, has readable content and an evidence id of the manifest, no two the same. */
  ghost predicate ShowsRows(env: Env, rows: seq<Row>, index: ItemMap)
    requires rows != []
  {
    && (forall i :: 0 <= i < |rows| ==>
          && SameCase(env, rows[i], rows[0]) && Mapping(env, rows[i].content).Some?
          && env.uuid(rows[i].evidenceId).Some? && env.uuid(rows[i].evidenceId).value in index)
    && (forall i, j :: 0 <= i < j < |rows| ==> env.uuid(rows[i].evidenceId) != env.uuid(rows[j].evidenceId))
  }

  lemma RowsExactly(env: Env, rows: seq<Row>, index: ItemMap)
    requires rows != []
    ensures RowsValid(env, rows[0], rows, index) <==> ShowsRows(env, rows, index)
  {
    forall i | 0 <= i < |rows|
      ensures Consistent(env, rows[0], rows[i]) <==> SameCase(env, rows[i], rows[0])
    {
      SameCaseExactly(env, rows[0], rows[i]);
    }
  }

  /** The rows bring every evidence id of the manifest. */
  ghost predicate BringsAll(env: Env, rows: seq<Row>, index: ItemMap) {
    forall id :: id in index ==> exists i :: 0 <= i < |rows| && env.uuid(rows[i].evidenceId) == Some(id)
  }

  lemma BringsExactly(env: Env, first: Row, rows: seq<Row>, index: ItemMap)
    requires RowsValid(env, first, rows, index)
    ensures BringsAll(env, rows, index) <==> forall id :: id in index <==> Returned(env, rows, id)
  {
    forall id
      ensures Returned(env, rows, id) <==> exists i :: 0 <= i < |rows| && env.uuid(rows[i].evidenceId) == Some(id)
    {
    }
    forall id | Returned(env, rows, id)
      ensures id in index
    {
      var i :| 0 <= i < |rows| && RowId(env, rows[i]) == Some(id);
      assert RowValid(env, first, rows[i], index);
    }
  }

  lemma EvidenceExactly(env: Env, rows: seq<Row>, items: seq<Json>, index: ItemMap, tariff: Row)
    requires rows != []
    ensures EvidenceValid(env, rows[0], rows, items, index, tariff) <==> ShowsEvidence(env, rows, items, index, tariff)
  {
    OnlyTariffExactly(rows, tariff);
    RowsExactly(env, rows, index);
    if RowsValid(env, rows[0], rows, index) {
      BringsExactly(env, rows[0], rows, index);
      if k :| 0 <= k < |rows| && rows[k] == tariff && OnlyTariffAt(rows, k) {
        assert RowValid(env, rows[0], rows[k], index);
      }
    }
  }

  lemma SameCaseExactly(env: Env, first: Row, row: Row)
    ensures Consistent(env, first, row) <==> SameCase(env, row, first)
  {
    var a, b := CaseFields(row), CaseFields(first);
    assert SameCase(env, row, first) ==>
             && env.canonical(a[0]) == env.canonical(b[0]) && env.canonical(a[1]) == env.canonical(b[1])
             && env.canonical(a[2]) == env.canonical(b[2]) && env.canonical(a[3]) == env.canonical(b[3])
             && env.canonical(a[4]) == env.canonical(b[4]) && env.canonical(a[5]) == env.canonical(b[5])
             && env.canonical(a[6]) == env.canonical(b[6]);
  }

  /** The row is sealed under its manifest item: same content, digest, kind and source. */
  ghost predicate AsSealed(env: Env, row: Row, item: Fields, content: Fields) {
    var digest := env.sha(env.canonical(Object(content)));
    && row.sealedFlag == Bool(true)
    && (row.contentSha == Str(digest) || row.contentSha == Str("sha256:" + digest))
    && env.canonical(Get(item, Content)) == env.canonical(Object(content))
    && (env.text(Get(item, ContentSha)) == digest || env.text(Get(item, ContentSha)) == "sha256:" + digest)
    && env.text(Get(item, Kind)) == env.text(row.kind)
    && env.text(Get(item, SourceTable)) == env.text(row.sourceTable)
    && env.text(Get(item, SourceId)) == env.text(row.sourceId)
  }

  lemma BoundExactly(env: Env, row: Row, item: Fields, content: Fields)
    ensures Bound(env, row, item, content) <==> AsSealed(env, row, item, content)
  {
    if row.contentSha.Str? {
      HashForms(env, row.contentSha.s, Object(content));
    }
    HashForms(env, env.text(Get(item, ContentSha)), Object(content));
  }

  ghost predicate AllAsSealed(env: Env, rows: seq<Row>, index: ItemMap) {
    forall i :: 0 <= i < |rows| ==>
      && env.uuid(rows[i].evidenceId).Some? && env.uuid(rows[i].evidenceId).value in index
      && Mapping(env, rows[i].content).Some?
      && AsSealed(env, rows[i], index[env.uuid(rows[i].evidenceId).value], Mapping(env, rows[i].content).value)
  }

  lemma AllBoundExactly(env: Env, first: Row, rows: seq<Row>, index: ItemMap)
    requires RowsValid(env, first, rows, index)
    ensures RowsBound(env, first, rows, index) <==> AllAsSealed(env, rows, index)
  {
    forall i | 0 <= i < |rows|
      ensures RowBound(env, first, rows[i], index) <==>
                AsSealed(env, rows[i], index[RowId(env, rows[i]).value], Mapping(env, rows[i].content).value)
    {
      BoundExactly(env, rows[i], index[RowId(env, rows[i]).value], Mapping(env, rows[i].content).value);
    }
  }

  /** The first row is of the tenant and case asked for, which the view names. */
  ghost predicate ShowsCase(env: Env, ask: Ask, first: Row, v: View) {
    && env.uuid(ask.tenant) == Some(v.tenant) == env.uuid(first.tenantId)
    && env.uuid(ask.caseId) == Some(v.caseId) == env.uuid(first.caseId)
  }

  /** It is sealed, at the time asked for if any; at seal time its state is FILED. */
  ghost predicate ShowsSeal(env: Env, ask: Ask, first: Row, v: View) {
    && first.caseState != Null && v.state == env.text(first.caseState)
    && (v.state == FILED || (!ask.historical && (v.state == CONTESTED || v.state == RESOLVED)))
    && v.sealedAt == env.text(first.sealedAt) && env.isHlc(v.sealedAt)
    && (ask.hlc.Some? ==> env.text(ask.hlc.value) == v.sealedAt)
    && IsNumberOne(first.manifestVersion)
    && first.evidenceHash != Null && v.storedHash == env.text(first.evidenceHash) && !Blank(v.storedHash)
  }

  /** Its manifest is that of the same case and lists some evidence. */
  ghost predicate ShowsManifest(env: Env, m: Fields, v: View) {
    && IsNumberOne(Get(m, ManifestVersion))
    && env.uuid(Get(m, TenantId)) == Some(v.tenant) && env.uuid(Get(m, CaseId)) == Some(v.caseId)
    && Get(m, EvidenceList).List? && Get(m, EvidenceList).items != []
    && v.recomputedHash == Hash(env, Object(m))
  }

  /** The tariff row and its sealed content can be read, and the view shows the row's values and the sealed rate. */
  ghost predicate ShowsTariff(env: Env, tariff: Row, content: Fields, v: View) {
    && env.uuid(tariff.sourceId).Some? && env.uuid(tariff.clauseId).Some? && env.uuid(tariff.snapshotId).Some?
    && env.uuid(Get(content, ClauseId)).Some? && env.uuid(Get(content, CaptureId)).Some?
    && env.decimal(tariff.tariffRate) == Some(v.rate) && env.decimal(Get(content, RateAmount)) == Some(v.sealedRate)
    && tariff.versionLabel != Null && v.version == env.text(tariff.versionLabel) && !Blank(v.version)
    && Sha256(env, tariff.clauseSha) == Some(v.clauseSha) && Sha256(env, tariff.snapshotSha) == Some(v.sourceSha)
    && Sha256(env, Get(content, ClauseSha)).Some? && Sha256(env, Get(content, SourceSha)).Some?
    && v.sealedContentSha == Hash(env, Object(content))
  }

  /** The tariff row still points at the clause and capture that were sealed, with the sealed rate and digests. */
  ghost predicate TariffAsSealed(env: Env, tariff: Row, content: Fields) {
    && env.uuid(tariff.sourceId) == env.uuid(tariff.clauseId) == env.uuid(Get(content, ClauseId))
    && env.uuid(tariff.snapshotId) == env.uuid(Get(content, CaptureId))
    && env.decimal(tariff.tariffRate) == env.decimal(Get(content, RateAmount))
    && Sha256(env, tariff.clauseSha) == Sha256(env, Get(content, ClauseSha))
    && Sha256(env, tariff.snapshotSha) == Sha256(env, Get(content, SourceSha))
  }

  /** `v` shows what the rows say about the case asked for, and is intact exactly when everything is as it was sealed. */
  ghost predicate Presents(env: Env, ask: Ask, rows: seq<Row>, index: ItemMap, tariff: Row, v: View) {
    && rows != []
    && ShowsCase(env, ask, rows[0], v) && ShowsSeal(env, ask, rows[0], v)
    && Mapping(env, rows[0].manifest).Some?
    && var m := Mapping(env, rows[0].manifest).value;
    && ShowsManifest(env, m, v)
    && ShowsEvidence(env, rows, Get(m, EvidenceList).items, index, tariff)
    && var content := Mapping(env, tariff.content).value;
    && ShowsTariff(env, tariff, content, v)
    && (v.intact <==> v.storedHash == v.recomputedHash && AllAsSealed(env, rows, index) && TariffAsSealed(env, tariff, content))
    && (ask.historical ==> v.intact)
  }

  lemma SealedStatesAreText()
    ensures !Blank(FILED) && !Blank(CONTESTED) && !Blank(RESOLVED)
  {
    assert !IsSpace(FILED[0]) && !IsSpace(CONTESTED[0]) && !IsSpace(RESOLVED[0]);
  }

  lemma HeadExactly(env: Env, ask: Ask, first: Row, v: View)
    ensures var m := Mapping(env, first.manifest);
            ShowsCase(env, ask, first, v) && ShowsSeal(env, ask, first, v) && m.Some? && ShowsManifest(env, m.value, v) <==>
              HeadOf(env, ask, first) == Some(Head(v.tenant, v.caseId, v.state, v.sealedAt,
                if m.Some? then m.value else map[], v.storedHash,
                if m.Some? && Get(m.value, EvidenceList).List? then Get(m.value, EvidenceList).items else []))
              && m.Some? && v.recomputedHash == Hash(env, Object(m.value))
  {
    SealedStatesAreText();
  }

  lemma TariffExactly(env: Env, tariff: Row, content: Fields, v: View)
    ensures ShowsTariff(env, tariff, content, v) <==>
              var t := TariffOf(env, tariff, content);
              && t.Some? && t.value.rate == v.rate && t.value.sealedRate == v.sealedRate && t.value.version == v.version
              && t.value.clauseSha == v.clauseSha && t.value.sourceSha == v.sourceSha && t.value.contentSha == v.sealedContentSha
    ensures TariffOf(env, tariff, content).Some? ==>
              (TariffIntact(TariffOf(env, tariff, content).value) <==> TariffAsSealed(env, tariff, content))
  {
  }

  lemma ReplaysExactly(env: Env, ask: Ask, rows: seq<Row>, index: ItemMap, tariff: Row, v: View)
    ensures Replays(env, ask, rows, index, tariff, v) <==> Presents(env, ask, rows, index, tariff, v)
  {
    if rows != [] {
      HeadExactly(env, ask, rows[0], v);
      var m := Mapping(env, rows[0].manifest);
      if m.Some? && Get(m.value, EvidenceList).List? {
        var items := Get(m.value, EvidenceList).items;
        EvidenceExactly(env, rows, items, index, tariff);
        if EvidenceValid(env, rows[0], rows, items, index, tariff) {
          AllBoundExactly(env, rows[0], rows, index);
        }
      }
      if Mapping(env, tariff.content).Some? {
        TariffExactly(env, tariff, Mapping(env, tariff.content).value, v);
      }
    }
  }

  /** `validate_replay_rows`: the view of the rows, and a refusal exactly when there is none. */
  method ValidateReplayRows(env: Env, ask: Ask, rows: seq<Row>)
    returns (v: Option<View>, ghost index: ItemMap, ghost tariff: Row)
    ensures v.Some? ==> Replays(env, ask, rows, index, tariff, v.value)
    ensures v.None? ==> forall i, t, w :: !Replays(env, ask, rows, i, t, w)
    ensures v.Some? ==> Presents(env, ask, rows, index, tariff, v.value)
    ensures v.None? ==> forall i, t, w :: !Presents(env, ask, rows, i, t, w)
  {
    v, index, tariff := Validate(env, ask, rows);
    if v.Some? {
      ReplaysExactly(env, ask, rows, index, tariff, v.value);
    } else {
      forall i, t, w
        ensures !Presents(env, ask, rows, i, t, w)
      {
        ReplaysExactly(env, ask, rows, i, t, w);
      }
    }
  }

  method Validate(env: Env, ask: Ask, rows: seq<Row>) returns (v: Option<View>, ghost index: ItemMap, ghost tariff: Row)
    ensures v.Some? ==> Replays(env, ask, rows, index, tariff, v.value)
    ensures v.None? ==> forall i, t, w :: !Replays(env, ask, rows, i, t, w)
  {
    index := map[];
    if rows == [] {
      tariff := *;
      return None, index, tariff;
    }
    tariff := rows[0];
    var head := HeadOf(env, ask, rows[0]);
    if head.None? {
      return None, index, tariff;
    }
    var h := head.value;
    v, index, tariff := ValidateEvidence(env, ask, rows, h);
  }

  method ValidateEvidence(env: Env, ask: Ask, rows: seq<Row>, h: Head)
    returns (v: Option<View>, ghost index: ItemMap, ghost tariff: Row)
    requires rows != [] && HeadOf(env, ask, rows[0]) == Some(h)
    ensures v.Some? ==> Replays(env, ask, rows, index, tariff, v.value)
    ensures v.None? ==> forall i, t, w :: !Replays(env, ask, rows, i, t, w)
  {
    index, tariff := map[], rows[0];
    var items := ReadManifest(env, h.items);
    if items.None? {
      return None, index, tariff;
    }
    index := items.value;
    var recomputed := Hash(env, Object(h.manifest));
    var scan := CheckRows(env, rows[0], rows, items.value, h.storedHash == recomputed);
    forall i | IsIndex(env, h.items, i)
      ensures i == index
    {
      IndexUnique(env, h.items, i, index);
    }
    if scan.None? || scan.value.returned != items.value.Keys || |scan.value.tariffs| != 1 {
      return None, index, tariff;
    }
    tariff := scan.value.tariffs[0];
    FilterMembers(IsTariff, rows);
    assert tariff in Filter(IsTariff, rows);
    var content := Mapping(env, scan.value.tariffs[0].content).value;
    var t := TariffOf(env, scan.value.tariffs[0], content);
    if t.None? {
      return None, index, tariff;
    }
    var intact := scan.value.intact && TariffIntact(t.value);
    if ask.historical && !intact {
      return None, index, tariff;
    }
    v := Some(ViewOf(env, h, t.value, intact));
  }

  // The comparison

  datatype Response = Response(before: View, now: View, matches: bool)

  /** `build_replay_response`, up to how the two views are shown. */
  function BuildReplayResponse(before: View, now: View): Option<Response> {
    if before.tenant != now.tenant || before.caseId != now.caseId || before.sealedAt != now.sealedAt then None
    else Some(Response(before, now,
      && now.intact
      && before.rate == now.rate == now.sealedRate
      && before.version == now.version
      && before.storedHash == now.recomputedHash
      && before.sealedContentSha == now.sealedContentSha
      && before.clauseSha == now.clauseSha
      && before.sourceSha == now.sourceSha))
  }

  /** The response refuses exactly views of different tenants, cases or seals; otherwise it shows both. */
  lemma RespondsExactly(before: View, now: View)
    ensures BuildReplayResponse(before, now).None? <==>
              before.tenant != now.tenant || before.caseId != now.caseId || before.sealedAt != now.sealedAt
    ensures BuildReplayResponse(before, now).Some? ==>
              BuildReplayResponse(before, now).value.before == before && BuildReplayResponse(before, now).value.now == now
  {
  }

  /** A stored digest may be written with or without its prefix. */
  lemma HashForms(env: Env, stored: string, value: Json)
    ensures IsHash(stored, Hash(env, value)) <==>
              stored == "sha256:" + env.sha(env.canonical(value)) || stored == env.sha(env.canonical(value))
  {
    assert Hash(env, value)[|PREFIX|..] == env.sha(env.canonical(value));
  }

  /** A digest is read from 64 lower-case hexadecimal digits, with or without the prefix. */
  lemma Sha256Exactly(env: Env, value: Json, h: string)
    ensures Sha256(env, value) == Some(h) <==>
              && value != Null && |h| == 64 && (forall i :: 0 <= i < 64 ==> h[i] in "0123456789abcdef")
              && (env.text(value) == h || env.text(value) == "sha256:" + h)
  {
    var text := env.text(value);
    HexDigits(h);
    if |h| == 64 && (forall i :: 0 <= i < 64 ==> h[i] in "0123456789abcdef") {
      assert PREFIX[0] == 's' && h[0] in "0123456789abcdef";
      assert !(PREFIX <= h);
      assert !IsSpace(h[0]) && !IsSpace((PREFIX + h)[0]);
      assert (PREFIX + h)[|PREFIX|..] == h;
    }
    if PREFIX <= text {
      assert text == PREFIX + text[|PREFIX|..];
    }
  }

  lemma HexDigits(h: string)
    ensures IsSha256(h) <==> |h| == 64 && forall i :: 0 <= i < 64 ==> h[i] in "0123456789abcdef"
  {
    forall i | 0 <= i < |h|
      ensures '0' <= h[i] <= '9' || 'a' <= h[i] <= 'f' <==> h[i] in "0123456789abcdef"
    {
      HexDigit(h[i]);
    }
  }

  lemma HexDigit(c: char)
    ensures '0' <= c <= '9' || 'a' <= c <= 'f' <==> c in "0123456789abcdef"
  {
    var s := "0123456789abcdef";
    if '0' <= c <= '9' {
      assert s[c as int - '0' as int] == c;
    }
    if 'a' <= c <= 'f' {
      assert s[c as int - 'a' as int + 10] == c;
    }
  }

  /** A mapping is an object, or a text that parses to one. */
  lemma MappingExactly(env: Env, value: Json, m: Fields)
    ensures Mapping(env, value) == Some(m) <==>
              value == Object(m) || (value.Str? && env.parse(value.s) == Some(Object(m)))
  {
  }
}
