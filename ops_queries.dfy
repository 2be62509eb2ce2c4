/**
  The read-side filters of the views: the operations-board order list
  (owner restriction, comma-separated status and service-type sets, an
  inclusive start-date range), the companies a user may see, and the
  company id the profile endpoint reports.
*/
module OpsQueries {
  import opened Wrappers
  import opened Text
  import opened Models
  import Serializers

  /** The keep-in-order filter a chained `qs.filter(...)` applies. */
  function Where(orders: seq<Order>, keep: Order -> bool): (r: seq<Order>)
    ensures |r| <= |orders|
    ensures forall o :: o in r <==> o in orders && keep(o)
  {
    if orders == [] then []
    else if keep(orders[0]) then [orders[0]] + Where(orders[1..], keep)
    else Where(orders[1..], keep)
  }

  /** The query parameters the operations board reads. */
  datatype OpsParams = OpsParams(
    status: Option<string>,
    tipoServicio: Option<string>,
    dateFrom: Option<string>,
    dateTo: Option<string>)

  /** A comma-separated parameter: its stripped, non-empty pieces; none when the parameter is missing or empty. */
  function ParamParts(param: Option<string>): (r: seq<string>)
    ensures forall k :: 0 <= k < |r| ==> r[k] != "" && IsTrimmed(r[k])
  {
    if param.None? || param.value == "" then [] else CleanPieces(Split(param.value, ','))
  }

  /** A value is among the parts exactly when it is a non-empty stripped piece of the parameter. */
  lemma ParamPartsMembers(param: Option<string>, x: string)
    ensures x in ParamParts(param) <==>
      param.Some? && x != "" && exists p :: p in Split(param.value, ',') && Trim(p) == x
  {
    if param.Some? {
      CleanPiecesMembers(Split(param.value, ','), x);
      if param.value == "" {
        assert Split(param.value, ',') == [""];
        assert forall p :: p in Split(param.value, ',') ==> Trim(p) == "";
      }
    }
  }

  /** `_parse_dt` followed by `.date()`: no bound for a missing or empty value or one the parser rejects. */
  function DateBound(v: Option<string>, parseDate: string -> Option<Date>): Option<Date> {
    if v.None? || v.value == "" then None else parseDate(v.value)
  }

  /** `PedidoOpsViewSet.get_queryset`. */
  function OpsQueryset(orders: seq<Order>, user: User, q: OpsParams, parseDate: string -> Option<Date>): seq<Order> {
    var mine := if user.isStaff then orders else Where(orders, (o: Order) => o.user == user.id);
    var st := ParamParts(q.status);
    var byStatus := if st != [] then Where(mine, (o: Order) => o.estado in st) else mine;
    var ts := ParamParts(q.tipoServicio);
    var byTipo := if ts != [] then Where(byStatus, (o: Order) => o.tipoServicio in ts) else byStatus;
    var from := DateBound(q.dateFrom, parseDate);
    var byFrom := if from.Some? then Where(byTipo, (o: Order) => o.fechaInicio >= from.value) else byTipo;
    var to := DateBound(q.dateTo, parseDate);
    if to.Some? then Where(byFrom, (o: Order) => o.fechaInicio <= to.value) else byFrom
  }

  /** The order passes the owner, status, service-type and date conditions of the parameters. */
  predicate OpsSelects(o: Order, user: User, q: OpsParams, parseDate: string -> Option<Date>) {
    var st := ParamParts(q.status);
    var ts := ParamParts(q.tipoServicio);
    var from := DateBound(q.dateFrom, parseDate);
    var to := DateBound(q.dateTo, parseDate);
    && (user.isStaff || o.user == user.id)
    && (st == [] || o.estado in st)
    && (ts == [] || o.tipoServicio in ts)
    && (from.None? || from.value <= o.fechaInicio)
    && (to.None? || o.fechaInicio <= to.value)
  }

  /**
    The board lists exactly the stored orders that pass every condition:
    non-staff users only their own, status and service type within the
    given sets, start date within the inclusive bounds.
  */
  lemma OpsQuerysetMembers(orders: seq<Order>, user: User, q: OpsParams, parseDate: string -> Option<Date>, o: Order)
    ensures o in OpsQueryset(orders, user, q, parseDate) <==> o in orders && OpsSelects(o, user, q, parseDate)
  {
  }

  /** An order starting on a bound date itself is listed: both bounds are inclusive. */
  lemma OpsBoundsInclusive(orders: seq<Order>, user: User, q: OpsParams, parseDate: string -> Option<Date>, o: Order)
    requires o in orders && (user.isStaff || o.user == user.id)
    requires q.status.None? && q.tipoServicio.None?
    requires DateBound(q.dateFrom, parseDate) == Some(o.fechaInicio)
    requires DateBound(q.dateTo, parseDate) == Some(o.fechaInicio)
    ensures o in OpsQueryset(orders, user, q, parseDate)
  {
    OpsQuerysetMembers(orders, user, q, parseDate, o);
  }

  /**
    `EmpresaViewSet.get_queryset`: staff see every company; anyone else
    exactly the companies named as the stripped company name on their
    profile, and none when that name is blank.
  */
  function VisibleCompanies(u: User, empresas: seq<Empresa>): (r: seq<Empresa>)
    ensures u.isStaff ==> r == empresas
    ensures !u.isStaff ==> forall e :: e in r <==> e in empresas && Trim(u.empresa) != "" && e.nombre == Trim(u.empresa)
  {
    if u.isStaff then empresas
    else
      var nombre := Trim(u.empresa);
      if nombre != "" then Serializers.CompaniesNamed(empresas, nombre) else []
  }

  /** The smallest id among the companies: `.first()` on a queryset with no ordering goes by primary key. */
  function LowestId(es: seq<Empresa>): (r: Option<nat>)
    ensures r.None? <==> es == []
    ensures r.Some? ==> exists e :: e in es && e.id == r.value
    ensures r.Some? ==> forall e :: e in es ==> r.value <= e.id
  {
    if es == [] then None
    else
      match LowestId(es[1..])
      case None => Some(es[0].id)
      case Some(m) =>
        assert forall e :: e in es ==> e == es[0] || e in es[1..];
        if es[0].id <= m then Some(es[0].id) else Some(m)
  }

  /**
    `me_view`: the id of a company named as on the profile, the one with
    the lowest id; none when the name is blank or no company has it.
  */
  function ProfileCompanyId(u: User, empresas: seq<Empresa>): (r: Option<nat>)
    ensures r.None? <==> Trim(u.empresa) == "" || forall e :: e in empresas ==> e.nombre != Trim(u.empresa)
    ensures r.Some? ==> exists e :: e in empresas && e.nombre == Trim(u.empresa) && e.id == r.value
    ensures r.Some? ==> forall e :: e in empresas && e.nombre == Trim(u.empresa) ==> r.value <= e.id
  {
    var nombre := Trim(u.empresa);
    if nombre == "" then None
    else
      var named := Serializers.CompaniesNamed(empresas, nombre);
      assert named != [] ==> named[0] in named;
      LowestId(named)
  }

  /**
    The company an order of a non-staff user is resolved to is among the
    companies that user may list, and is the one the profile endpoint reports.
  */
  lemma ResolvedCompanyIsVisible(u: User, empresas: seq<Empresa>)
    requires Serializers.ResolveCompany(u, empresas).Ok?
    ensures Serializers.ResolveCompany(u, empresas).value in VisibleCompanies(u, empresas)
    ensures ProfileCompanyId(u, empresas) == Some(Serializers.ResolveCompany(u, empresas).value.id)
  {
    Serializers.ResolveCompanyOutcomes(u, empresas);
    var c := Serializers.ResolveCompany(u, empresas).value;
    var named := Serializers.CompaniesNamed(empresas, Trim(u.empresa));
    assert named == [c];
    assert LowestId(named) == Some(c.id);
  }
}
