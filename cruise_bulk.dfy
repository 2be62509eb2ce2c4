/**
  The bulk manifest upload. A batch of manifest rows, optionally wrapped
  with shared metadata, is stamped with one printing time, validated as a
  whole, grouped by (service date, ship) and applied group by group: a
  preliminary group may not replace a ship-day that already holds a final
  row; any other group replaces every stored row of its ship-day. When the
  metadata names a company, one order is derived from every stored row.
  The whole request is one transaction: it either commits every change or
  none.
*/
module CruiseBulk {
  import opened Wrappers
  import opened Text
  import opened Seqs
  import opened Models
  import opened Values
  import opened Serializers

  // ---------------------------------------------------------------
  // The payload and the merge of metadata into rows
  // ---------------------------------------------------------------

  /**
    The request body: an object with a "rows" key (a missing or empty
    "meta" read as {}, an empty "rows" as []), a bare list of rows, or
    anything else, which carries no rows.
  */
  datatype Payload =
    | Batch(meta: Dict, rows: seq<Dict>)
    | RowList(rows: seq<Dict>)
    | Other

  /** The keys the metadata may set in every row. */
  const CommonKeys: seq<string> := ["service_date", "ship", "status", "terminal", "supplier", "emergency_contact"]

  /** `v not in (None, "")`: a metadata value that replaces the row's. */
  predicate Overrides(v: Json) {
    v != JNull && v != JStr("")
  }

  /** The keys among `keys` whose metadata value replaces the row's. */
  function OverriddenKeys(meta: Dict, keys: seq<string>): (r: set<string>)
    ensures forall k :: k in r ==> k in meta
  {
    set k | k in keys && Overrides(Get(meta, k))
  }

  /**
    One row with the metadata merged in: each common key takes the
    metadata value when that is neither None nor "", and keeps the row's
    otherwise; every other key keeps the row's value; the printing date is
    the request's time.
  */
  function MergedRow(meta: Dict, row: Dict, now: Timestamp): (rr: Dict)
    ensures "printing_date" in rr && rr["printing_date"] == JTime(now)
    ensures forall k :: k in CommonKeys && Overrides(Get(meta, k)) ==> k in rr && rr[k] == meta[k]
    ensures forall k :: k in CommonKeys && !Overrides(Get(meta, k)) ==> Get(rr, k) == Get(row, k)
    ensures forall k :: k !in CommonKeys && k != "printing_date" ==> Get(rr, k) == Get(row, k)
  {
    MergedKeys(meta, row, CommonKeys)["printing_date" := JTime(now)]
  }

  /** The row with the metadata values of the overriding keys among `keys` written over it. */
  function MergedKeys(meta: Dict, row: Dict, keys: seq<string>): Dict {
    var over := OverriddenKeys(meta, keys);
    map k | k in row.Keys + over :: if k in over then meta[k] else row[k]
  }

  /** The rows the serializer receives. */
  datatype Normalised = Normalised(meta: Dict, rows: seq<Dict>)

  function Normalise(payload: Payload, now: Timestamp): (n: Normalised)
    ensures forall i :: 0 <= i < |n.rows| ==> "printing_date" in n.rows[i] && n.rows[i]["printing_date"] == JTime(now)
  {
    match payload
    case Batch(meta, rows) => Normalised(meta, seq(|rows|, i requires 0 <= i < |rows| => MergedRow(meta, rows[i], now)))
    case RowList(rows) => Normalised(map[], seq(|rows|, i requires 0 <= i < |rows| => rows[i]["printing_date" := JTime(now)]))
    case Other => Normalised(map[], [])
  }

  lemma OverriddenKeysSnoc(meta: Dict, keys: seq<string>, j: nat)
    requires j < |keys|
    ensures OverriddenKeys(meta, keys[..j + 1]) ==
      OverriddenKeys(meta, keys[..j]) + (if Overrides(Get(meta, keys[j])) then {keys[j]} else {})
  {
    assert keys[..j + 1] == keys[..j] + [keys[j]];
  }

  lemma MergedKeysNone(meta: Dict, row: Dict, keys: seq<string>)
    ensures MergedKeys(meta, row, keys[..0]) == row
  {
    assert OverriddenKeys(meta, keys[..0]) == {};
  }

  lemma MergedKeysSnoc(meta: Dict, row: Dict, keys: seq<string>, j: nat)
    requires j < |keys|
    ensures MergedKeys(meta, row, keys[..j + 1]) ==
      var prev := MergedKeys(meta, row, keys[..j]);
      if Overrides(Get(meta, keys[j])) then prev[keys[j] := meta[keys[j]]] else prev
  {
    OverriddenKeysSnoc(meta, keys, j);
  }

  /** The merge of one row: the loop over the common keys, then the printing date. */
  method MergeRow(meta: Dict, row: Dict, now: Timestamp) returns (rr: Dict)
    ensures rr == MergedRow(meta, row, now)
  {
    rr := row;
    MergedKeysNone(meta, row, CommonKeys);
    var j := 0;
    while j < |CommonKeys|
      invariant 0 <= j <= |CommonKeys|
      invariant rr == MergedKeys(meta, row, CommonKeys[..j])
    {
      var k := CommonKeys[j];
      MergedKeysSnoc(meta, row, CommonKeys, j);
      var v := Get(meta, k);
      if v != JNull && v != JStr("") {
        rr := rr[k := v];
      }
      j := j + 1;
    }
    assert CommonKeys[..|CommonKeys|] == CommonKeys;
    rr := rr["printing_date" := JTime(now)];
  }

  /** The normalisation of the payload into the rows handed to the serializer. */
  method NormalisePayload(payload: Payload, now: Timestamp) returns (meta: Dict, rows: seq<Dict>)
    ensures Normalised(meta, rows) == Normalise(payload, now)
  {
    match payload {
      case Batch(m, raw) =>
        meta := m;
        rows := [];
        var i := 0;
        while i < |raw|
          invariant 0 <= i <= |raw| && |rows| == i
          invariant forall j :: 0 <= j < i ==> rows[j] == MergedRow(m, raw[j], now)
        {
          var rr := MergeRow(m, raw[i], now);
          rows := rows + [rr];
          i := i + 1;
        }
      case RowList(raw) =>
        meta := map[];
        rows := seq(|raw|, i requires 0 <= i < |raw| => raw[i]["printing_date" := JTime(now)]);
      case Other =>
        meta := map[];
        rows := [];
    }
  }

  /** Every row handed to the serializer carries the same printing time. */
  lemma OnePrintingTime(payload: Payload, now: Timestamp, i: nat, j: nat)
    requires i < |Normalise(payload, now).rows| && j < |Normalise(payload, now).rows|
    ensures Get(Normalise(payload, now).rows[i], "printing_date") == Get(Normalise(payload, now).rows[j], "printing_date") == JTime(now)
  {
  }

  // ---------------------------------------------------------------
  // Validation of the whole list
  // ---------------------------------------------------------------

  /** The row serializer with the parsers fixed. */
  function RowValidator(p: Parsers): Dict -> Option<CruiseFields> {
    (d: Dict) => ValidateCruiseRow(d, p)
  }

  /** The list serializer: every row valid, or the request is refused. */
  function ValidateAll(raw: seq<Dict>, validate: Dict -> Option<CruiseFields>): (r: Option<seq<CruiseFields>>)
    ensures r.Some? ==> |r.value| == |raw| && forall i :: 0 <= i < |raw| ==> validate(raw[i]) == Some(r.value[i])
    ensures r.None? <==> exists i :: 0 <= i < |raw| && validate(raw[i]).None?
  {
    if raw == [] then Some([])
    else
      match validate(raw[0])
      case None => None
      case Some(f) =>
        match ValidateAll(raw[1..], validate)
        case None =>
          var i :| 0 <= i < |raw[1..]| && validate(raw[1..][i]).None?;
          assert validate(raw[i + 1]).None?;
          None
        case Some(fs) =>
          assert forall i :: 1 <= i < |raw| ==> raw[i] == raw[1..][i - 1];
          Some([f] + fs)
  }

  // ---------------------------------------------------------------
  // Grouping by (service date, ship)
  // ---------------------------------------------------------------

  function KeysOf(rows: seq<CruiseFields>): (ks: seq<GroupKey>)
    ensures |ks| == |rows| && forall i :: 0 <= i < |rows| ==> ks[i] == GroupKeyOf(rows[i])
  {
    seq(|rows|, i requires 0 <= i < |rows| => GroupKeyOf(rows[i]))
  }

  /** The groups in the order their keys first appear. */
  function GroupOrder(rows: seq<CruiseFields>): (keys: seq<GroupKey>)
    ensures NoDup(keys)
    ensures forall k :: k in keys <==> k in KeysOf(rows)
  {
    Dedup(KeysOf(rows))
  }

  /** The rows of one group, in payload order (defined by extending a prefix). */
  function RowsOf(rows: seq<CruiseFields>, k: GroupKey): (r: seq<CruiseFields>)
    ensures |r| <= |rows|
    ensures forall i :: 0 <= i < |r| ==> GroupKeyOf(r[i]) == k
  {
    if rows == [] then []
    else RowsOf(rows[..|rows| - 1], k) + (if GroupKeyOf(rows[|rows| - 1]) == k then [rows[|rows| - 1]] else [])
  }

  lemma {:induction false} RowsOfAbsent(rows: seq<CruiseFields>, k: GroupKey)
    requires k !in KeysOf(rows)
    ensures RowsOf(rows, k) == []
  {
    if rows != [] {
      var n := |rows| - 1;
      assert KeysOf(rows[..n]) == KeysOf(rows)[..n];
      RowsOfAbsent(rows[..n], k);
      assert KeysOf(rows)[n] == GroupKeyOf(rows[n]);
    }
  }

  lemma KeysOfSnoc(rows: seq<CruiseFields>)
    requires rows != []
    ensures KeysOf(rows) == KeysOf(rows[..|rows| - 1]) + [GroupKeyOf(rows[|rows| - 1])]
  {
  }

  /**
    `groups.setdefault(key, []).append(row)` over the validated rows: the
    keys in first-appearance order, and each key's rows in payload order.
  */
  method GroupRows(rows: seq<CruiseFields>) returns (keys: seq<GroupKey>, groups: map<GroupKey, seq<CruiseFields>>)
    ensures keys == GroupOrder(rows)
    ensures forall k :: k in groups <==> k in keys
    ensures forall k :: k in groups ==> groups[k] == RowsOf(rows, k)
  {
    keys := [];
    groups := map[];
    var i := 0;
    while i < |rows|
      invariant 0 <= i <= |rows|
      invariant keys == Dedup(KeysOf(rows[..i]))
      invariant forall k :: k in groups <==> k in keys
      invariant forall k :: k in groups ==> groups[k] == RowsOf(rows[..i], k)
    {
      var r := rows[i];
      var k := GroupKeyOf(r);
      assert rows[..i + 1][..i] == rows[..i];
      KeysOfSnoc(rows[..i + 1]);
      DedupSnoc(KeysOf(rows[..i]), k);
      if k in groups {
        groups := groups[k := groups[k] + [r]];
      } else {
        RowsOfAbsent(rows[..i], k);
        keys := keys + [k];
        groups := groups[k := [r]];
      }
      i := i + 1;
    }
    assert rows[..|rows|] == rows;
  }

  /** The first row of a group is the first payload row with that key. */
  lemma {:induction false} GroupHead(rows: seq<CruiseFields>, k: GroupKey)
    requires k in KeysOf(rows)
    ensures RowsOf(rows, k) != [] && RowsOf(rows, k)[0] == rows[FirstPos(KeysOf(rows), k)]
  {
    var n := |rows| - 1;
    var pre := rows[..n];
    KeysOfSnoc(rows);
    if k in KeysOf(pre) {
      GroupHead(pre, k);
      assert KeysOf(rows)[..n] == KeysOf(pre);
      FirstPosPrefix(KeysOf(rows), n, k);
    } else {
      RowsOfAbsent(pre, k);
      assert KeysOf(rows)[..n] == KeysOf(pre);
      FirstPosUnique(KeysOf(rows), k, n);
    }
  }

  /** Every validated row lies in the group of its key, and that group is listed. */
  lemma {:induction false} EveryRowInItsGroup(rows: seq<CruiseFields>, i: nat)
    requires i < |rows|
    ensures GroupKeyOf(rows[i]) in GroupOrder(rows)
    ensures rows[i] in RowsOf(rows, GroupKeyOf(rows[i]))
  {
    assert KeysOf(rows)[i] == GroupKeyOf(rows[i]);
    var n := |rows| - 1;
    if i < n {
      assert rows[..n][i] == rows[i];
      EveryRowInItsGroup(rows[..n], i);
    }
  }

  /** The total size of the listed groups (defined by extending a prefix). */
  function SumSizes(keys: seq<GroupKey>, rows: seq<CruiseFields>): nat {
    if keys == [] then 0 else SumSizes(keys[..|keys| - 1], rows) + |RowsOf(rows, keys[|keys| - 1])|
  }

  lemma {:induction false} SumSizesSnocRow(keys: seq<GroupKey>, rows: seq<CruiseFields>)
    requires rows != [] && NoDup(keys)
    ensures SumSizes(keys, rows) ==
      SumSizes(keys, rows[..|rows| - 1]) + (if GroupKeyOf(rows[|rows| - 1]) in keys then 1 else 0)
  {
    if keys != [] {
      var m := |keys| - 1;
      assert NoDup(keys[..m]);
      SumSizesSnocRow(keys[..m], rows);
      assert forall x :: x in keys <==> x in keys[..m] || x == keys[m];
      assert keys[m] !in keys[..m];
    }
  }

  /** The groups partition the validated rows: their sizes add up to the number of rows. */
  lemma {:induction false} GroupSizesSum(rows: seq<CruiseFields>)
    ensures SumSizes(GroupOrder(rows), rows) == |rows|
  {
    if rows != [] {
      var n := |rows| - 1;
      var pre := rows[..n];
      var k := GroupKeyOf(rows[n]);
      GroupSizesSum(pre);
      KeysOfSnoc(rows);
      DedupSnoc(KeysOf(pre), k);
      SumSizesSnocRow(GroupOrder(rows), rows);
      if k in GroupOrder(pre) {
        assert GroupOrder(rows) == GroupOrder(pre);
      } else {
        var g := GroupOrder(pre);
        assert GroupOrder(rows) == g + [k];
        assert (g + [k])[..|g|] == g;
        SumSizesSnocRow(g, rows);
        RowsOfAbsent(pre, k);
        assert k !in g;
      }
    }
  }

  // ---------------------------------------------------------------
  // The manifest table seen by ship-day
  // ---------------------------------------------------------------

  /** The stored rows of one ship-day, in table order. */
  function Select(rows: seq<CruiseRow>, k: GroupKey): (r: seq<CruiseRow>)
    ensures |r| <= |rows|
    ensures forall x {:trigger x in r} :: x in r <==> x in rows && GroupKeyOf(x.fields) == k
  {
    if rows == [] then []
    else
      assert forall x :: x in rows ==> x == rows[0] || x in rows[1..];
      (if GroupKeyOf(rows[0].fields) == k then [rows[0]] else []) + Select(rows[1..], k)
  }

  /** The table without the rows of one ship-day (`qs.delete()`). */
  function RemoveGroup(rows: seq<CruiseRow>, k: GroupKey): (r: seq<CruiseRow>)
    ensures |r| <= |rows|
    ensures forall x {:trigger x in r} :: x in r <==> x in rows && GroupKeyOf(x.fields) != k
  {
    if rows == [] then []
    else
      assert forall x :: x in rows ==> x == rows[0] || x in rows[1..];
      (if GroupKeyOf(rows[0].fields) != k then [rows[0]] else []) + RemoveGroup(rows[1..], k)
  }

  /** `qs.count()` for one ship-day. */
  function CountGroup(rows: seq<CruiseRow>, k: GroupKey): nat {
    |Select(rows, k)|
  }

  /** `qs.filter(status__iexact="final").exists()` for one ship-day. */
  predicate FinalStored(rows: seq<CruiseRow>, k: GroupKey) {
    exists x :: x in Select(rows, k) && Lower(x.fields.status) == "final"
  }

  /** The rows `bulk_create` inserts for a group: consecutive fresh ids, the request's time as printing date. */
  function NewRows(lote: seq<CruiseFields>, nextId: nat, now: Timestamp): (r: seq<CruiseRow>)
    ensures |r| == |lote|
    ensures forall i :: 0 <= i < |lote| ==> r[i] == CruiseRow(nextId + i, now, now, now, lote[i])
  {
    if lote == [] then [] else [CruiseRow(nextId, now, now, now, lote[0])] + NewRows(lote[1..], nextId + 1, now)
  }

  function FieldsOf(rows: seq<CruiseRow>): (fs: seq<CruiseFields>)
    ensures |fs| == |rows| && forall i :: 0 <= i < |rows| ==> fs[i] == rows[i].fields
  {
    seq(|rows|, i requires 0 <= i < |rows| => rows[i].fields)
  }

  lemma {:induction false} SelectAppend(a: seq<CruiseRow>, b: seq<CruiseRow>, k: GroupKey)
    ensures Select(a + b, k) == Select(a, k) + Select(b, k)
  {
    if a != [] {
      SelectAppend(a[1..], b, k);
      assert (a + b)[0] == a[0];
      assert (a + b)[1..] == a[1..] + b;
      var head := if GroupKeyOf(a[0].fields) == k then [a[0]] else [];
      assert Select(a + b, k) == head + (Select(a[1..], k) + Select(b, k));
      assert head + (Select(a[1..], k) + Select(b, k)) == (head + Select(a[1..], k)) + Select(b, k);
    } else {
      assert a + b == b;
    }
  }

  lemma {:induction false} SelectRemoved(rows: seq<CruiseRow>, k: GroupKey, k2: GroupKey)
    ensures Select(RemoveGroup(rows, k), k2) == if k2 == k then [] else Select(rows, k2)
  {
    if rows != [] {
      SelectRemoved(rows[1..], k, k2);
      var head := if GroupKeyOf(rows[0].fields) != k then [rows[0]] else [];
      SelectAppend(head, RemoveGroup(rows[1..], k), k2);
    }
  }

  lemma {:induction false} SelectNewRows(lote: seq<CruiseFields>, nextId: nat, now: Timestamp, k: GroupKey, k2: GroupKey)
    requires forall i :: 0 <= i < |lote| ==> GroupKeyOf(lote[i]) == k
    ensures Select(NewRows(lote, nextId, now), k2) == if k2 == k then NewRows(lote, nextId, now) else []
  {
    if lote != [] {
      SelectNewRows(lote[1..], nextId + 1, now, k, k2);
      assert NewRows(lote, nextId, now)[1..] == NewRows(lote[1..], nextId + 1, now);
    }
  }

  // ---------------------------------------------------------------
  // Derived orders
  // ---------------------------------------------------------------

  /** Whether and how orders are derived: not at all, or for one company, status, requester and printing text. */
  datatype Derivation = NoOrders | MakeOrders(empresa: nat, estado: string, user: nat, printed: string)

  /**
    Why the upload fails: no session, a row the serializer refuses, a
    company the orders cannot refer to, or an order text longer than its
    column (the database refuses it and the transaction rolls back).
  */
  datatype PostError = NotAuthenticated | InvalidRows | UnknownCompany | OrderFieldTooLong

  predicate HasCompany(empresas: seq<Empresa>, id: nat) {
    exists i :: 0 <= i < |empresas| && empresas[i].id == id
  }

  /** `meta.get("estado_pedido") or "pagado"`. */
  function EstadoPedido(meta: Dict): (r: string)
    ensures r != ""
    ensures !Truthy(Get(meta, "estado_pedido")) ==> r == "pagado"
    ensures Get(meta, "estado_pedido").JStr? && Truthy(Get(meta, "estado_pedido")) ==> r == Get(meta, "estado_pedido").s
  {
    match Get(meta, "estado_pedido")
    case JStr(s) => if s != "" then s else "pagado"
    case JInt(n) => if n != 0 then IntText(n) else "pagado"
    case _ => "pagado"
  }

  /**
    A falsy `meta["empresa"]` derives no orders; an id of a stored company
    derives orders for it; anything else makes the insert of the orders
    fail.
  */
  function DeriveFrom(meta: Dict, empresas: seq<Empresa>, requester: User, printed: string): (r: Result<Derivation, PostError>)
    ensures r == Ok(NoOrders) <==> !Truthy(Get(meta, "empresa"))
    ensures r.Ok? && r.value.MakeOrders? ==>
      Get(meta, "empresa") == JInt(r.value.empresa) && HasCompany(empresas, r.value.empresa)
      && r.value.estado == EstadoPedido(meta) && r.value.user == requester.id
    ensures match Get(meta, "empresa")
      case JInt(n) => n > 0 && HasCompany(empresas, n) ==> r == Ok(MakeOrders(n, EstadoPedido(meta), requester.id, printed))
      case _ => true
    ensures r.Err? ==> r.error == UnknownCompany
  {
    var v := Get(meta, "empresa");
    if !Truthy(v) then Ok(NoOrders)
    else if v.JInt? && v.n > 0 && HasCompany(empresas, v.n) then Ok(MakeOrders(v.n, EstadoPedido(meta), requester.id, printed))
    else Err(UnknownCompany)
  }

  /** `f"{tag}: {value}"`. */
  function NotePiece(tag: string, value: string): string {
    tag + ": " + value
  }

  /** A piece the notes keep: non-empty and not ending in ": ". */
  predicate KeptPiece(x: string) {
    x != "" && !EndsWith(x, ": ")
  }

  function KeptPieces(xs: seq<string>): (r: seq<string>)
    ensures forall x :: x in r <==> x in xs && KeptPiece(x)
  {
    if xs == [] then []
    else (if KeptPiece(xs[0]) then [xs[0]] else []) + KeptPieces(xs[1..])
  }

  /** `str(time) or ''` for the arrival time. */
  function ArrivalText(t: Option<string>): string {
    if t.Some? then t.value else ""
  }

  /** The labelled parts of an order's notes, before the empty ones are dropped. */
  function NoteParts(f: CruiseFields, first: CruiseFields, k: GroupKey, printed: string): seq<string> {
    [ NotePiece("Barco", k.ship),
      NotePiece("Idioma", f.language),
      NotePiece("Hora", ArrivalText(f.arrivalTime)),
      NotePiece("Proveedor", first.supplier),
      NotePiece("Terminal", first.terminal),
      NotePiece("Impresi\U{f3}n", printed) ]
  }

  /** The notes: the kept parts joined with "; ". */
  function OrderNotes(f: CruiseFields, first: CruiseFields, k: GroupKey, printed: string): string {
    JoinWith(KeptPieces(NoteParts(f, first, k, printed)), "; ")
  }

  /** A labelled piece is dropped exactly when its value is empty or itself ends in ": ". */
  lemma NotePieceKept(tag: string, value: string)
    ensures KeptPiece(NotePiece(tag, value)) <==> value != "" && !EndsWith(value, ": ")
  {
    var x := NotePiece(tag, value);
    if |value| == 1 {
      assert x[|x| - 2..] == [' ', value[0]];
    }
    if |value| >= 2 {
      assert x[|x| - 2..] == value[|value| - 2..];
    }
    if value == "" {
      assert x[|x| - 2..] == ": ";
    }
  }

  /** A stripped value ends in no space, so its piece is dropped exactly when it is empty. */
  lemma TrimmedPieceKept(tag: string, value: string)
    requires IsTrimmed(value)
    ensures KeptPiece(NotePiece(tag, value)) <==> value != ""
  {
    NotePieceKept(tag, value);
  }

  /** The order derived from one manifest row of a group; `bulk_create` does not run `save`, so its log stays empty. */
  function DerivedOrder(f: CruiseFields, first: CruiseFields, k: GroupKey, d: Derivation, id: nat): Order
    requires d.MakeOrders?
  {
    Order(id, d.user, d.empresa, f.excursion, k.serviceDate, None, "crucero", d.estado, "", "",
      OrderNotes(f, first, k, d.printed), f.sign, None, f.pax, "", [])
  }

  /** The orders derived from a group, one per row, with consecutive fresh ids. */
  function DerivedOrders(lote: seq<CruiseFields>, k: GroupKey, d: Derivation, nextId: nat): (r: seq<Order>)
    requires d.MakeOrders?
    ensures |r| == |lote|
  {
    seq(|lote|, i requires 0 <= i < |lote| => DerivedOrder(lote[i], lote[0], k, d, nextId + i))
  }

  /**
    Each derived order is a cruise service for the company and status of
    the derivation, starting on the ship-day's date with no end date, with
    the row's passengers, sign and excursion, and an empty log.
  */
  lemma DerivedOrderFields(lote: seq<CruiseFields>, k: GroupKey, d: Derivation, nextId: nat, i: nat)
    requires d.MakeOrders? && i < |lote|
    ensures var o := DerivedOrders(lote, k, d, nextId)[i];
      && o.id == nextId + i && o.empresa == d.empresa && o.user == d.user
      && o.tipoServicio == "crucero" && o.estado == d.estado
      && o.fechaInicio == k.serviceDate && o.fechaFin.None?
      && o.pax == lote[i].pax && o.bono == lote[i].sign && o.excursion == lote[i].excursion
      && o.emisores.None? && o.updates == []
      && o.notas == OrderNotes(lote[i], lote[0], k, d.printed)
  {
  }

  /**
    What the derived orders need to fit their columns: nothing when no
    orders are made or the group is empty; otherwise a status of at most
    20 characters and, on every row, an excursion of at most 150 and a
    sign of at most 100 characters.
  */
  predicate DerivationFits(lote: seq<CruiseFields>, d: Derivation) {
    || d.NoOrders?
    || lote == []
    || (&& |d.estado| <= EstadoMaxLength
        && forall i :: 0 <= i < |lote| ==> |lote[i].excursion| <= ExcursionMaxLength && |lote[i].sign| <= BonoMaxLength)
  }

  /** The database accepts a group's derived orders exactly when the derivation fits. */
  lemma DerivedOrdersFit(lote: seq<CruiseFields>, k: GroupKey, d: Derivation, nextId: nat)
    requires d.MakeOrders?
    ensures AllFitColumns(DerivedOrders(lote, k, d, nextId)) <==> DerivationFits(lote, d)
  {
    var os := DerivedOrders(lote, k, d, nextId);
    if lote != [] && AllFitColumns(os) {
      assert FitsColumns(os[0]);
      forall i | 0 <= i < |lote|
        ensures |lote[i].excursion| <= ExcursionMaxLength && |lote[i].sign| <= BonoMaxLength
      {
        assert FitsColumns(os[i]);
      }
    }
  }

  /** The ship piece of the notes is present exactly when the ship name is non-empty. */
  lemma NotesShipPiece(f: CruiseFields, first: CruiseFields, k: GroupKey, printed: string)
    requires IsTrimmed(k.ship)
    ensures NotePiece("Barco", k.ship) in KeptPieces(NoteParts(f, first, k, printed)) <==> k.ship != ""
  {
    TrimmedPieceKept("Barco", k.ship);
  }

  /** The language piece of the notes is present exactly when the row's language is non-empty. */
  lemma NotesLanguagePiece(f: CruiseFields, first: CruiseFields, k: GroupKey, printed: string)
    requires IsTrimmed(f.language)
    ensures NotePiece("Idioma", f.language) in KeptPieces(NoteParts(f, first, k, printed)) <==> f.language != ""
  {
    TrimmedPieceKept("Idioma", f.language);
  }

  // ---------------------------------------------------------------
  // The tables, one group, and the whole batch
  // ---------------------------------------------------------------

  /** The tables the upload changes. */
  datatype Tables = Tables(cruises: seq<CruiseRow>, nextCruiseId: nat, orders: seq<Order>, nextOrderId: nat)

  /** The response counters. */
  datatype Summary = Summary(created: nat, overwritten: nat, blocked: nat, blockedGroups: seq<GroupKey>, createdPedidos: nat)

  datatype Outcome = Outcome(tables: Tables, summary: Summary)

  /** Primary keys are distinct and below the next key to be handed out. */
  predicate TablesValid(t: Tables) {
    KeysValid(t.cruises, t.nextCruiseId, t.orders, t.nextOrderId)
  }

  function TablesOf(db: Database): Tables
    reads db
  {
    Tables(db.cruises, db.nextCruiseId, db.orders, db.nextOrderId)
  }

  /** A group is refused when it is preliminary (by its first row) and its ship-day already holds a final row. */
  predicate Blocked(cruises: seq<CruiseRow>, k: GroupKey, lote: seq<CruiseFields>) {
    lote != [] && Lower(lote[0].status) == "preliminary" && FinalStored(cruises, k)
  }

  /** One group: refused and counted, or a full replace of its ship-day followed by the derived orders. */
  function ApplyGroup(t: Tables, s: Summary, k: GroupKey, lote: seq<CruiseFields>,
                      derive: Result<Derivation, PostError>, now: Timestamp): Result<Outcome, PostError>
  {
    if Blocked(t.cruises, k, lote) then
      Ok(Outcome(t, s.(blocked := s.blocked + |lote|, blockedGroups := s.blockedGroups + [k])))
    else
      var t1 := t.(cruises := RemoveGroup(t.cruises, k) + NewRows(lote, t.nextCruiseId, now),
                   nextCruiseId := t.nextCruiseId + |lote|);
      var s1 := s.(overwritten := s.overwritten + CountGroup(t.cruises, k), created := s.created + |lote|);
      match derive
      case Err(e) => Err(e)
      case Ok(NoOrders) => Ok(Outcome(t1, s1))
      case Ok(d) =>
        var peds := DerivedOrders(lote, k, d, t.nextOrderId);
        if !AllFitColumns(peds) then Err(OrderFieldTooLong)
        else
          Ok(Outcome(
            t1.(orders := t.orders + peds, nextOrderId := t.nextOrderId + |lote|),
            s1.(createdPedidos := s1.createdPedidos + |lote|)))
  }

  /** The groups applied in order (defined by extending a prefix); the first failure ends the batch. */
  function Run(t0: Tables, keys: seq<GroupKey>, rows: seq<CruiseFields>,
               derive: Result<Derivation, PostError>, now: Timestamp): Result<Outcome, PostError>
  {
    if keys == [] then Ok(Outcome(t0, Summary(0, 0, 0, [], 0)))
    else
      match Run(t0, keys[..|keys| - 1], rows, derive, now)
      case Err(e) => Err(e)
      case Ok(o) => ApplyGroup(o.tables, o.summary, keys[|keys| - 1], RowsOf(rows, keys[|keys| - 1]), derive, now)
  }

  /**
    `CruceroBulkView.post` as one state transition: a request that is not
    authenticated, or one row that fails validation, changes nothing;
    otherwise the groups are applied in first-appearance order.
  */
  function PostSpec(t0: Tables, empresas: seq<Empresa>, payload: Payload, requester: User,
                    p: Parsers, now: Timestamp, printed: string): Result<Outcome, PostError>
  {
    if !requester.isAuthenticated then Err(PostError.NotAuthenticated)
    else
      var n := Normalise(payload, now);
      match ValidateAll(n.rows, RowValidator(p))
      case None => Err(InvalidRows)
      case Some(rows) => Run(t0, GroupOrder(rows), rows, DeriveFrom(n.meta, empresas, requester, printed), now)
  }

  // ---------------------------------------------------------------
  // The request handler
  // ---------------------------------------------------------------

  /** The stages `PostSpec` goes through for an authenticated request. */
  lemma PostSpecSteps(t0: Tables, empresas: seq<Empresa>, payload: Payload, requester: User,
                      p: Parsers, now: Timestamp, printed: string, n: Normalised)
    requires requester.isAuthenticated && n == Normalise(payload, now)
    ensures PostSpec(t0, empresas, payload, requester, p, now, printed) ==
      match ValidateAll(n.rows, RowValidator(p))
      case None => Err(InvalidRows)
      case Some(rows) => Run(t0, GroupOrder(rows), rows, DeriveFrom(n.meta, empresas, requester, printed), now)
  {
  }

  /** The orders derived from one group, built row by row. */
  method BuildOrders(lote: seq<CruiseFields>, k: GroupKey, d: Derivation, nextId: nat) returns (peds: seq<Order>)
    requires d.MakeOrders?
    ensures peds == DerivedOrders(lote, k, d, nextId)
  {
    peds := [];
    var j := 0;
    while j < |lote|
      invariant 0 <= j <= |lote| && |peds| == j
      invariant forall m :: 0 <= m < j ==> peds[m] == DerivedOrder(lote[m], lote[0], k, d, nextId + m)
    {
      peds := peds + [DerivedOrder(lote[j], lote[0], k, d, nextId + j)];
      j := j + 1;
    }
  }

  lemma {:induction false} RunErrPersists(t0: Tables, keys: seq<GroupKey>, rows: seq<CruiseFields>,
                                          derive: Result<Derivation, PostError>, now: Timestamp, n: nat)
    requires n <= |keys| && Run(t0, keys[..n], rows, derive, now).Err?
    ensures Run(t0, keys, rows, derive, now) == Run(t0, keys[..n], rows, derive, now)
    decreases |keys| - n
  {
    if n < |keys| {
      assert keys[..n + 1][..n] == keys[..n];
      RunErrPersists(t0, keys, rows, derive, now, n + 1);
    } else {
      assert keys[..n] == keys;
    }
  }

  /**
    One pass of the group loop: the refusal check against the table as it
    stands, or the delete, the insert and the derived orders. The
    derived orders' insert fails when the company is unusable or an
    order's text does not fit its column.
  */
  method ApplyOne(t: Tables, s: Summary, k: GroupKey, lote: seq<CruiseFields>,
                  derive: Result<Derivation, PostError>, now: Timestamp) returns (r: Result<Outcome, PostError>)
    ensures r == ApplyGroup(t, s, k, lote, derive, now)
  {
    var newStatus := if lote != [] then Lower(lote[0].status) else "";
    var finalExists := FinalStored(t.cruises, k);
    if newStatus == "preliminary" && finalExists {
      return Ok(Outcome(t, s.(blocked := s.blocked + |lote|, blockedGroups := s.blockedGroups + [k])));
    }
    var t1 := t.(cruises := RemoveGroup(t.cruises, k) + NewRows(lote, t.nextCruiseId, now),
                 nextCruiseId := t.nextCruiseId + |lote|);
    var s1 := s.(overwritten := s.overwritten + CountGroup(t.cruises, k), created := s.created + |lote|);
    if derive.Err? {
      return Err(derive.error);
    }
    if derive.value.MakeOrders? {
      DerivedOrdersFit(lote, k, derive.value, t.nextOrderId);
    }
    r := AddDerivedOrders(t1, s1, lote, k, derive.value);
  }

  /**
    The derived orders of one group, inserted when there are any; the
    insert fails when an order's text is longer than its column.
  */
  method AddDerivedOrders(t: Tables, s: Summary, lote: seq<CruiseFields>, k: GroupKey, d: Derivation)
      returns (r: Result<Outcome, PostError>)
    ensures d.NoOrders? ==> r == Ok(Outcome(t, s))
    ensures d.MakeOrders? && !DerivationFits(lote, d) ==> r == Err(OrderFieldTooLong)
    ensures d.MakeOrders? && DerivationFits(lote, d) ==>
      r == Ok(Outcome(
        t.(orders := t.orders + DerivedOrders(lote, k, d, t.nextOrderId), nextOrderId := t.nextOrderId + |lote|),
        s.(createdPedidos := s.createdPedidos + |lote|)))
  {
    if d.NoOrders? {
      return Ok(Outcome(t, s));
    }
    var peds := BuildOrders(lote, k, d, t.nextOrderId);
    DerivedOrdersFit(lote, k, d, t.nextOrderId);
    if |peds| == 0 {
      assert t.orders + peds == t.orders;
      return Ok(Outcome(t, s));
    }
    if !AllFitColumns(peds) {
      return Err(OrderFieldTooLong);
    }
    r := Ok(Outcome(t.(orders := t.orders + peds, nextOrderId := t.nextOrderId + |peds|),
                    s.(createdPedidos := s.createdPedidos + |peds|)));
  }

  /** The loop over the groups, in first-appearance order; the first failure ends it. */
  method RunGroups(t0: Tables, keys: seq<GroupKey>, groups: map<GroupKey, seq<CruiseFields>>, rows: seq<CruiseFields>,
                   derive: Result<Derivation, PostError>, now: Timestamp) returns (r: Result<Outcome, PostError>)
    requires forall k :: k in keys ==> k in groups && groups[k] == RowsOf(rows, k)
    ensures r == Run(t0, keys, rows, derive, now)
  {
    var t := t0;
    var s := Summary(0, 0, 0, [], 0);
    var i := 0;
    while i < |keys|
      invariant 0 <= i <= |keys|
      invariant Run(t0, keys[..i], rows, derive, now) == Ok(Outcome(t, s))
    {
      var k := keys[i];
      RunSnoc(t0, keys, rows, derive, now, i);
      var step := ApplyOne(t, s, k, groups[k], derive, now);
      if step.Err? {
        RunErrPersists(t0, keys, rows, derive, now, i + 1);
        assert keys[..|keys|] == keys;
        return Err(step.error);
      }
      t, s := step.value.tables, step.value.summary;
      i := i + 1;
    }
    assert keys[..|keys|] == keys;
    return Ok(Outcome(t, s));
  }

  /** The batch after one more group. */
  lemma RunSnoc(t0: Tables, keys: seq<GroupKey>, rows: seq<CruiseFields>,
                derive: Result<Derivation, PostError>, now: Timestamp, i: nat)
    requires i < |keys|
    ensures Run(t0, keys[..i + 1], rows, derive, now) ==
      match Run(t0, keys[..i], rows, derive, now)
      case Err(e) => Err(e)
      case Ok(o) => ApplyGroup(o.tables, o.summary, keys[i], RowsOf(rows, keys[i]), derive, now)
  {
    assert keys[..i + 1][..i] == keys[..i];
  }

  /**
    The upload handler. It works on a copy of the tables and writes it
    back only when every group went through, so a failing request leaves
    the database as it was; the tables and counters it leaves are the
    ones `PostSpec` describes, and primary keys stay distinct.
  */
  method Post(db: Database, payload: Payload, requester: User, p: Parsers, now: Timestamp, printed: string)
      returns (r: Result<Summary, PostError>)
    requires db.Valid()
    modifies db`cruises, db`nextCruiseId, db`orders, db`nextOrderId
    ensures db.Valid()
    ensures match PostSpec(old(TablesOf(db)), db.empresas, payload, requester, p, now, printed)
      case Err(e) => r == Err(e) && TablesOf(db) == old(TablesOf(db))
      case Ok(o) => r == Ok(o.summary) && TablesOf(db) == o.tables
  {
    var outcome := Handle(TablesOf(db), db.empresas, payload, requester, p, now, printed);
    r := Commit(db, outcome);
  }

  /** The end of the transaction: a failure writes nothing, a success writes the new tables back. */
  method Commit(db: Database, outcome: Result<Outcome, PostError>) returns (r: Result<Summary, PostError>)
    requires outcome.Ok? ==> TablesValid(outcome.value.tables)
    requires db.Valid()
    modifies db`cruises, db`nextCruiseId, db`orders, db`nextOrderId
    ensures db.Valid()
    ensures match outcome
      case Err(e) => r == Err(e) && TablesOf(db) == old(TablesOf(db))
      case Ok(o) => r == Ok(o.summary) && TablesOf(db) == o.tables
  {
    if outcome.Err? {
      return Err(outcome.error);
    }
    var t := outcome.value.tables;
    db.cruises, db.nextCruiseId, db.orders, db.nextOrderId := t.cruises, t.nextCruiseId, t.orders, t.nextOrderId;
    r := Ok(outcome.value.summary);
  }

  /** The body of the handler's transaction, on a copy of the tables. */
  method Handle(t0: Tables, empresas: seq<Empresa>, payload: Payload, requester: User,
                p: Parsers, now: Timestamp, printed: string) returns (r: Result<Outcome, PostError>)
    requires TablesValid(t0)
    ensures r == PostSpec(t0, empresas, payload, requester, p, now, printed)
    ensures r.Ok? ==> TablesValid(r.value.tables)
  {
    if !requester.isAuthenticated {
      return Err(PostError.NotAuthenticated);
    }
    var meta, raw := NormalisePayload(payload, now);
    var validated := ValidateAll(raw, RowValidator(p));
    PostSpecSteps(t0, empresas, payload, requester, p, now, printed, Normalised(meta, raw));
    if validated.None? {
      return Err(InvalidRows);
    }
    var rows := validated.value;
    var keys, groups := GroupRows(rows);
    var derive := DeriveFrom(meta, empresas, requester, printed);
    r := RunGroups(t0, keys, groups, rows, derive, now);
    if r.Ok? {
      RunValid(t0, keys, rows, derive, now);
    }
  }

  // ---------------------------------------------------------------
  // Properties of one group and of the batch
  // ---------------------------------------------------------------

  /** A refused group leaves the tables as they were and counts its rows as blocked. */
  lemma BlockedGroupUnchanged(t: Tables, s: Summary, k: GroupKey, lote: seq<CruiseFields>,
                              derive: Result<Derivation, PostError>, now: Timestamp)
    requires Blocked(t.cruises, k, lote)
    ensures ApplyGroup(t, s, k, lote, derive, now) ==
      Ok(Outcome(t, s.(blocked := s.blocked + |lote|, blockedGroups := s.blockedGroups + [k])))
  {
  }

  /** After the delete and the insert, a ship-day holds the inserted rows if it is the group's, and its old rows otherwise. */
  lemma SelectAfterReplace(cruises: seq<CruiseRow>, lote: seq<CruiseFields>, nextId: nat, now: Timestamp,
                           k: GroupKey, k2: GroupKey)
    requires forall i :: 0 <= i < |lote| ==> GroupKeyOf(lote[i]) == k
    ensures Select(RemoveGroup(cruises, k) + NewRows(lote, nextId, now), k2) ==
      if k2 == k then NewRows(lote, nextId, now) else Select(cruises, k2)
  {
    SelectAppend(RemoveGroup(cruises, k), NewRows(lote, nextId, now), k2);
    SelectRemoved(cruises, k, k2);
    SelectNewRows(lote, nextId, now, k, k2);
    if k2 == k {
      assert [] + NewRows(lote, nextId, now) == NewRows(lote, nextId, now);
    } else {
      assert Select(cruises, k2) + [] == Select(cruises, k2);
    }
  }

  lemma FieldsOfNewRows(lote: seq<CruiseFields>, nextId: nat, now: Timestamp)
    ensures FieldsOf(NewRows(lote, nextId, now)) == lote
  {
  }

  /**
    A group goes through exactly when it is refused, or the derivation is
    usable and its orders fit their columns; otherwise the request fails
    with the derivation's error or because an order's text is too long.
  */
  lemma ApplyGroupOk(t: Tables, s: Summary, k: GroupKey, lote: seq<CruiseFields>,
                     derive: Result<Derivation, PostError>, now: Timestamp)
    ensures ApplyGroup(t, s, k, lote, derive, now).Ok? <==> GroupGoesThrough(t.cruises, k, lote, derive)
    ensures !Blocked(t.cruises, k, lote) && derive.Err? ==> ApplyGroup(t, s, k, lote, derive, now) == Err(derive.error)
    ensures !Blocked(t.cruises, k, lote) && derive.Ok? && !DerivationFits(lote, derive.value) ==>
      ApplyGroup(t, s, k, lote, derive, now) == Err(OrderFieldTooLong)
  {
    if derive.Ok? && derive.value.MakeOrders? {
      DerivedOrdersFit(lote, k, derive.value, t.nextOrderId);
    }
  }

  /**
    A group that is not refused replaces its ship-day: afterwards the
    stored rows of that ship-day are exactly the group's rows (fresh ids,
    the request's time), every other ship-day is untouched, overwritten
    grows by the number of rows replaced and created by the group's size.
  */
  lemma ReplacedGroup(t: Tables, s: Summary, k: GroupKey, lote: seq<CruiseFields>,
                      derive: Result<Derivation, PostError>, now: Timestamp, k2: GroupKey)
    requires !Blocked(t.cruises, k, lote) && derive.Ok? && DerivationFits(lote, derive.value)
    requires forall i :: 0 <= i < |lote| ==> GroupKeyOf(lote[i]) == k
    ensures ApplyGroup(t, s, k, lote, derive, now).Ok?
    ensures var o := ApplyGroup(t, s, k, lote, derive, now).value;
      && Select(o.tables.cruises, k) == NewRows(lote, t.nextCruiseId, now)
      && FieldsOf(Select(o.tables.cruises, k)) == lote
      && (k2 != k ==> Select(o.tables.cruises, k2) == Select(t.cruises, k2))
      && o.summary.overwritten == s.overwritten + CountGroup(t.cruises, k)
      && o.summary.created == s.created + |lote|
      && o.summary.blocked == s.blocked && o.summary.blockedGroups == s.blockedGroups
  {
    if derive.value.MakeOrders? {
      DerivedOrdersFit(lote, k, derive.value, t.nextOrderId);
    }
    var o := ApplyGroup(t, s, k, lote, derive, now).value;
    assert o.tables.cruises == RemoveGroup(t.cruises, k) + NewRows(lote, t.nextCruiseId, now);
    SelectAfterReplace(t.cruises, lote, t.nextCruiseId, now, k, k);
    SelectAfterReplace(t.cruises, lote, t.nextCruiseId, now, k, k2);
    FieldsOfNewRows(lote, t.nextCruiseId, now);
  }

  /**
    Orders are derived only for a group that is not refused and only
    when the metadata names a company: one per row, counted in
    created_pedidos; otherwise the orders table is unchanged.
  */
  lemma GroupOrders(t: Tables, s: Summary, k: GroupKey, lote: seq<CruiseFields>,
                    derive: Result<Derivation, PostError>, now: Timestamp)
    requires ApplyGroup(t, s, k, lote, derive, now).Ok?
    ensures var o := ApplyGroup(t, s, k, lote, derive, now).value;
      if !Blocked(t.cruises, k, lote) && derive.value.MakeOrders? then
        && o.tables.orders == t.orders + DerivedOrders(lote, k, derive.value, t.nextOrderId)
        && o.summary.createdPedidos == s.createdPedidos + |lote|
      else
        && o.tables.orders == t.orders
        && o.summary.createdPedidos == s.createdPedidos
  {
  }

  predicate GroupGoesThrough(cruises: seq<CruiseRow>, k: GroupKey, lote: seq<CruiseFields>,
                             derive: Result<Derivation, PostError>) {
    Blocked(cruises, k, lote) || (derive.Ok? && DerivationFits(lote, derive.value))
  }

  /** Each group counts its rows either as created or as blocked, never both. */
  lemma {:induction false} RunCounts(t0: Tables, keys: seq<GroupKey>, rows: seq<CruiseFields>,
                                     derive: Result<Derivation, PostError>, now: Timestamp)
    requires Run(t0, keys, rows, derive, now).Ok?
    ensures var s := Run(t0, keys, rows, derive, now).value.summary;
      s.created + s.blocked == SumSizes(keys, rows)
  {
    if keys != [] {
      RunCounts(t0, keys[..|keys| - 1], rows, derive, now);
    }
  }

  /** A successful upload counts every validated row exactly once, as created or as blocked. */
  lemma PostCounts(t0: Tables, empresas: seq<Empresa>, payload: Payload, requester: User,
                   p: Parsers, now: Timestamp, printed: string)
    requires PostSpec(t0, empresas, payload, requester, p, now, printed).Ok?
    ensures var s := PostSpec(t0, empresas, payload, requester, p, now, printed).value.summary;
      s.created + s.blocked == |Normalise(payload, now).rows|
  {
    var n := Normalise(payload, now);
    var rows := ValidateAll(n.rows, RowValidator(p)).value;
    RunCounts(t0, GroupOrder(rows), rows, DeriveFrom(n.meta, empresas, requester, printed), now);
    GroupSizesSum(rows);
  }

  /**
    A batch goes through exactly when each of its groups either is refused
    against the table as it stood before the request, or has a usable
    derivation whose orders fit their columns. Refusing a group never
    fails the request.
  */
  lemma {:induction false} RunSucceeds(t0: Tables, keys: seq<GroupKey>, rows: seq<CruiseFields>,
                                       derive: Result<Derivation, PostError>, now: Timestamp)
    requires NoDup(keys)
    ensures Run(t0, keys, rows, derive, now).Ok? <==>
      forall k :: k in keys ==> GroupGoesThrough(t0.cruises, k, RowsOf(rows, k), derive)
  {
    if keys != [] {
      var pre := keys[..|keys| - 1];
      var last := keys[|keys| - 1];
      assert NoDup(pre) && last !in pre;
      assert forall x :: x in keys <==> x in pre || x == last;
      RunSucceeds(t0, pre, rows, derive, now);
      if Run(t0, pre, rows, derive, now).Ok? {
        var o := Run(t0, pre, rows, derive, now).value;
        RunKeyOutcome(t0, pre, rows, derive, now, last);
        ApplyGroupOk(o.tables, o.summary, last, RowsOf(rows, last), derive, now);
      }
    }
  }

  /**
    The outcome for each ship-day of the batch: it is listed as blocked
    exactly when its group was refused against the table as it stood
    before the request, in which case its stored rows are unchanged;
    otherwise its stored rows are exactly the group's rows. A ship-day
    outside the batch is untouched.
  */
  lemma {:induction false} RunKeyOutcome(t0: Tables, keys: seq<GroupKey>, rows: seq<CruiseFields>,
                                         derive: Result<Derivation, PostError>, now: Timestamp, k: GroupKey)
    requires NoDup(keys) && Run(t0, keys, rows, derive, now).Ok?
    ensures var o := Run(t0, keys, rows, derive, now).value;
      && (k !in keys ==> k !in o.summary.blockedGroups && Select(o.tables.cruises, k) == Select(t0.cruises, k))
      && (k in keys ==> (k in o.summary.blockedGroups <==> Blocked(t0.cruises, k, RowsOf(rows, k))))
      && (k in keys && k in o.summary.blockedGroups ==> Select(o.tables.cruises, k) == Select(t0.cruises, k))
      && (k in keys && k !in o.summary.blockedGroups ==> FieldsOf(Select(o.tables.cruises, k)) == RowsOf(rows, k))
  {
    if keys != [] {
      var m := |keys| - 1;
      var pre := keys[..m];
      var last := keys[m];
      assert NoDup(pre);
      assert last !in pre;
      assert forall x :: x in keys <==> x in pre || x == last;
      RunKeyOutcome(t0, pre, rows, derive, now, k);
      RunKeyOutcome(t0, pre, rows, derive, now, last);
      var o := Run(t0, pre, rows, derive, now).value;
      var lote := RowsOf(rows, last);
      if Blocked(o.tables.cruises, last, lote) {
        BlockedGroupUnchanged(o.tables, o.summary, last, lote, derive, now);
      } else {
        ApplyGroupOk(o.tables, o.summary, last, lote, derive, now);
        ReplacedGroup(o.tables, o.summary, last, lote, derive, now, k);
      }
    }
  }

  lemma {:induction false} RemoveGroupDistinct(rows: seq<CruiseRow>, k: GroupKey)
    requires DistinctIds(rows)
    ensures DistinctIds(RemoveGroup(rows, k))
  {
    if rows != [] {
      RemoveGroupDistinct(rows[1..], k);
      var rest := RemoveGroup(rows[1..], k);
      assert forall x :: x in rest ==> x in rows[1..];
      forall x | x in rest
        ensures x.id != rows[0].id
      {
        var j :| 0 <= j < |rows[1..]| && rows[1..][j] == x;
        assert rows[j + 1] == x;
      }
    }
  }

  /** Applying a group keeps primary keys distinct and below the next key. */
  lemma ApplyGroupValid(t: Tables, s: Summary, k: GroupKey, lote: seq<CruiseFields>,
                        derive: Result<Derivation, PostError>, now: Timestamp)
    requires TablesValid(t) && ApplyGroup(t, s, k, lote, derive, now).Ok?
    ensures TablesValid(ApplyGroup(t, s, k, lote, derive, now).value.tables)
  {
    if !Blocked(t.cruises, k, lote) {
      ReplaceKeepsIds(t.cruises, k, lote, t.nextCruiseId, now);
      if derive.value.MakeOrders? {
        AppendOrdersKeepsIds(t.orders, lote, k, derive.value, t.nextOrderId);
      }
    }
  }

  /** Replacing a ship-day's rows by fresh ones keeps row ids distinct and below the advanced counter. */
  lemma ReplaceKeepsIds(cruises: seq<CruiseRow>, k: GroupKey, lote: seq<CruiseFields>, nextId: nat, now: Timestamp)
    requires DistinctIds(cruises) && forall i :: 0 <= i < |cruises| ==> cruises[i].id < nextId
    ensures var c := RemoveGroup(cruises, k) + NewRows(lote, nextId, now);
      DistinctIds(c) && forall i :: 0 <= i < |c| ==> c[i].id < nextId + |lote|
  {
    var removed := RemoveGroup(cruises, k);
    RemoveGroupDistinct(cruises, k);
    forall i | 0 <= i < |removed|
      ensures removed[i].id < nextId
    {
      assert removed[i] in removed;
      var j :| 0 <= j < |cruises| && cruises[j] == removed[i];
    }
    var c := removed + NewRows(lote, nextId, now);
    forall i, j | 0 <= i < j < |c|
      ensures c[i].id != c[j].id
    {
      if j >= |removed| && i < |removed| {
        assert c[i] == removed[i];
      }
    }
  }

  /** Appending the derived orders keeps order ids distinct and below the advanced counter. */
  lemma AppendOrdersKeepsIds(orders: seq<Order>, lote: seq<CruiseFields>, k: GroupKey, d: Derivation, nextId: nat)
    requires d.MakeOrders?
    requires DistinctOrderIds(orders) && forall i :: 0 <= i < |orders| ==> orders[i].id < nextId
    ensures var os := orders + DerivedOrders(lote, k, d, nextId);
      DistinctOrderIds(os) && forall i :: 0 <= i < |os| ==> os[i].id < nextId + |lote|
  {
    var os := orders + DerivedOrders(lote, k, d, nextId);
    forall i, j | 0 <= i < j < |os|
      ensures os[i].id != os[j].id
    {
      if j >= |orders| && i < |orders| {
        assert os[i] == orders[i];
      }
    }
  }

  /** The batch keeps primary keys distinct and below the next key. */
  lemma {:induction false} RunValid(t0: Tables, keys: seq<GroupKey>, rows: seq<CruiseFields>,
                                    derive: Result<Derivation, PostError>, now: Timestamp)
    requires TablesValid(t0) && Run(t0, keys, rows, derive, now).Ok?
    ensures TablesValid(Run(t0, keys, rows, derive, now).value.tables)
  {
    if keys != [] {
      var pre := keys[..|keys| - 1];
      RunValid(t0, pre, rows, derive, now);
      var o := Run(t0, pre, rows, derive, now).value;
      ApplyGroupValid(o.tables, o.summary, keys[|keys| - 1], RowsOf(rows, keys[|keys| - 1]), derive, now);
    }
  }
}
