/**
  The stored entities of the order-management backend: companies, users,
  orders (Pedido) with their event log, and cruise-manifest rows
  (PedidoCrucero). Table rows are values; a loaded order instance, whose
  lifecycle helpers update its fields in place, is the class `Pedido`; the
  database the request handlers change is the class `Database`.
*/
module Models {
  import opened Wrappers

  /** A calendar date, as a day number. */
  type Date = int
  /** An instant, as a tick count. */
  type Timestamp = int

  /** Empresa: a company, identified by its row id; its name is free text and not unique. */
  datatype Empresa = Empresa(id: nat, nombre: string)

  /** The requesting account: `empresa` is the free-text company name on the user's profile. */
  datatype User = User(id: nat, isAuthenticated: bool, isStaff: bool, empresa: string, username: string, email: string)

  /** The keys of `Pedido.TIPO_CHOICES`. */
  const TipoChoices: seq<string> := ["mediodia", "dia_Completo", "circuito", "crucero"]
  /** Field defaults of a new order. */
  const DefaultEstado: string := "pendiente_pago"
  const DefaultTipo: string := "mediodia"

  /** One record of an order's `updates` log; the user and the note parts are optional. */
  datatype LogEntry = LogEntry(ts: string, event: string, userId: Option<nat>, userName: Option<string>, note: Option<string>)

  /**
    A stored order row, as the request handlers read and insert it (the
    operations board, the derived cruise orders). The lifecycle helpers that
    change a loaded order in place work on the class `Pedido` below, which
    carries only the fields they touch.
  */
  datatype Order = Order(
    id: nat,
    user: nat,
    empresa: nat,
    excursion: string,
    fechaInicio: Date,
    fechaFin: Option<Date>,
    tipoServicio: string,
    estado: string,
    lugarEntrega: string,
    lugarRecogida: string,
    notas: string,
    bono: string,
    emisores: Option<nat>,
    pax: nat,
    guia: string,
    updates: seq<LogEntry>)

  /** The `max_length` of the `Pedido` text columns; the database refuses a longer value. */
  const ExcursionMaxLength := 150
  const TipoServicioMaxLength := 15
  const EstadoMaxLength := 20
  const LugarMaxLength := 150
  const BonoMaxLength := 100
  const GuiaMaxLength := 150

  /** An order whose every text column fits its declared width, so that the database can store it. */
  predicate FitsColumns(o: Order) {
    && |o.excursion| <= ExcursionMaxLength
    && |o.tipoServicio| <= TipoServicioMaxLength
    && |o.estado| <= EstadoMaxLength
    && |o.lugarEntrega| <= LugarMaxLength
    && |o.lugarRecogida| <= LugarMaxLength
    && |o.bono| <= BonoMaxLength
    && |o.guia| <= GuiaMaxLength
  }

  /** Every order of a `bulk_create` fits the columns; otherwise the insert, and with it the transaction, fails. */
  predicate AllFitColumns(os: seq<Order>) {
    forall i :: 0 <= i < |os| ==> FitsColumns(os[i])
  }

  /** The writable fields of a cruise-manifest row. */
  datatype CruiseFields = CruiseFields(
    supplier: string,
    emergencyContact: string,
    serviceDate: Date,
    ship: string,
    sign: string,
    excursion: string,
    language: string,
    pax: nat,
    arrivalTime: Option<string>,
    status: string,
    terminal: string)

  /**
    A stored cruise-manifest row: its id, its printing time, the audit
    times `uploaded_at` (set on insert) and `updated_at` (set on every
    write), and its writable fields.
  */
  datatype CruiseRow = CruiseRow(id: nat, printingDate: Timestamp, uploadedAt: Timestamp, updatedAt: Timestamp, fields: CruiseFields)

  /** The bulk upload groups manifest rows by (service_date, ship). */
  datatype GroupKey = GroupKey(serviceDate: Date, ship: string)

  /** The natural key of a manifest row: (service_date, ship, sign). */
  datatype SignKey = SignKey(serviceDate: Date, ship: string, sign: string)

  function GroupKeyOf(f: CruiseFields): GroupKey {
    GroupKey(f.serviceDate, f.ship)
  }

  function SignKeyOf(f: CruiseFields): SignKey {
    SignKey(f.serviceDate, f.ship, f.sign)
  }

  /** No two stored manifest rows share an id (the primary key). */
  predicate DistinctIds(rows: seq<CruiseRow>) {
    forall i, j :: 0 <= i < j < |rows| ==> rows[i].id != rows[j].id
  }

  /** No two stored orders share an id. */
  predicate DistinctOrderIds(orders: seq<Order>) {
    forall i, j :: 0 <= i < j < |orders| ==> orders[i].id != orders[j].id
  }

  /** The name recorded for a user in a log entry: the username, or the email when the username is empty. */
  function DisplayName(u: User): string {
    if u.username != "" then u.username else u.email
  }

  /** The entry `_log_update` appends. */
  function NewLogEntry(ts: string, event: string, user: Option<User>, note: Option<string>): (e: LogEntry)
    ensures e.ts == ts && e.event == event
    ensures e.userId.Some? <==> user.Some?
    ensures e.userName.Some? <==> user.Some?
    ensures user.Some? ==> e.userId == Some(user.value.id) && e.userName == Some(DisplayName(user.value))
    ensures e.note.Some? <==> note.Some? && note.value != ""
    ensures e.note.Some? ==> e.note == note
  {
    LogEntry(ts, event,
      if user.Some? then Some(user.value.id) else None,
      if user.Some? then Some(DisplayName(user.value)) else None,
      if note.Some? && note.value != "" then note else None)
  }

  /** The entry `save` seeds the log of a new order with. */
  function CreatedEntry(ts: string): LogEntry {
    LogEntry(ts, "created", None, None, None)
  }

  /**
    A loaded order instance (the in-memory counterpart of an `Order` row,
    restricted to the fields its methods change). The lifecycle helpers change `estado` and
    replace `updates`; `save` assigns the primary key of a new row and
    seeds its log.
  */
  class Pedido {
    var pk: Option<nat>
    var estado: string
    var tipoServicio: string
    var updates: seq<LogEntry>

    /** A new, unsaved order with the model's field defaults. */
    constructor ()
      ensures pk == None && estado == DefaultEstado && tipoServicio == DefaultTipo && updates == []
    {
      pk := None;
      estado := DefaultEstado;
      tipoServicio := DefaultTipo;
      updates := [];
    }

    /** `_log_update`: appends exactly one entry; the log before the call is a prefix of the log after. */
    method LogUpdate(event: string, user: Option<User>, note: Option<string>, ts: string)
      modifies this`updates
      ensures updates == old(updates) + [NewLogEntry(ts, event, user, note)]
    {
      updates := updates + [NewLogEntry(ts, event, user, note)];
    }

    /** `set_delivered`: status "entregado" and one "delivered" entry. */
    method SetDelivered(user: Option<User>, note: Option<string>, ts: string)
      modifies this`estado, this`updates
      ensures estado == "entregado"
      ensures updates == old(updates) + [NewLogEntry(ts, "delivered", user, note)]
    {
      estado := "entregado";
      LogUpdate("delivered", user, note, ts);
    }

    /** `set_collected`: status "recogido" and one "collected" entry. */
    method SetCollected(user: Option<User>, note: Option<string>, ts: string)
      modifies this`estado, this`updates
      ensures estado == "recogido"
      ensures updates == old(updates) + [NewLogEntry(ts, "collected", user, note)]
    {
      estado := "recogido";
      LogUpdate("collected", user, note, ts);
    }

    /**
      `save`: a new order (no primary key yet) with an empty log gets the
      log [created]; any other log is kept. A new order receives `newId`.
    */
    method Save(ts: string, newId: nat)
      modifies this`pk, this`updates
      ensures old(pk) == None && old(updates) == [] ==> updates == [CreatedEntry(ts)]
      ensures !(old(pk) == None && old(updates) == []) ==> updates == old(updates)
      ensures pk == if old(pk) == None then Some(newId) else old(pk)
    {
      if pk == None && updates == [] {
        updates := [CreatedEntry(ts)];
      }
      if pk == None {
        pk := Some(newId);
      }
    }
  }

  /** Delivering and then collecting leaves "recogido" and a log ending in [delivered, collected]. */
  method DeliverThenCollect(p: Pedido, staff: Option<User>, ts1: string, ts2: string)
    modifies p`estado, p`updates
    ensures p.estado == "recogido"
    ensures p.updates == old(p.updates) + [NewLogEntry(ts1, "delivered", staff, None), NewLogEntry(ts2, "collected", staff, None)]
    ensures p.pk == old(p.pk)
  {
    p.SetDelivered(staff, None, ts1);
    p.SetCollected(staff, None, ts2);
  }

  /** A freshly created and saved order: default status and service type, and the log [created]. */
  method CreateAndSave(ts: string, newId: nat) returns (p: Pedido)
    ensures fresh(p)
    ensures p.pk == Some(newId) && p.estado == DefaultEstado && p.tipoServicio == DefaultTipo
    ensures p.updates == [CreatedEntry(ts)]
  {
    p := new Pedido();
    p.Save(ts, newId);
  }

  /** Row ids and order ids are distinct and below the next id of their table. */
  predicate KeysValid(cruises: seq<CruiseRow>, nextCruiseId: nat, orders: seq<Order>, nextOrderId: nat) {
    && DistinctIds(cruises)
    && (forall i :: 0 <= i < |cruises| ==> cruises[i].id < nextCruiseId)
    && DistinctOrderIds(orders)
    && (forall i :: 0 <= i < |orders| ==> orders[i].id < nextOrderId)
  }

  /**
    The tables the request handlers read and write: the manifest rows, the
    orders and the companies, with the next primary key of each growing
    table.
  */
  class Database {
    var cruises: seq<CruiseRow>
    var nextCruiseId: nat
    var orders: seq<Order>
    var nextOrderId: nat
    var empresas: seq<Empresa>

    /** Primary keys are distinct and below the next key to be handed out. */
    predicate Valid()
      reads this
    {
      KeysValid(cruises, nextCruiseId, orders, nextOrderId)
    }

    constructor (companies: seq<Empresa>)
      ensures Valid()
      ensures cruises == [] && orders == [] && empresas == companies
    {
      cruises := [];
      nextCruiseId := 1;
      orders := [];
      nextOrderId := 1;
      empresas := companies;
    }
  }
}
