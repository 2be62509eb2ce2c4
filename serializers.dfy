/**
  The write-side validation of the REST serializers: company resolution and
  string cleaning when an order is created, the operations-board write
  checks (end date, service-type aliases), the date field that accepts a
  date-time, the validation of one cruise-manifest row, and the keyed
  manifest upsert on (service_date, ship, sign).
*/
module Serializers {
  import opened Wrappers
  import opened Text
  import opened Models
  import opened Values

  // ---------------------------------------------------------------
  // DateOrDateTimeToDateField
  // ---------------------------------------------------------------

  /**
    `value.split("T", 1)[0]`: a string holding a "T" is cut just before its
    first "T"; a string without one is returned whole.
  */
  function CutAtT(s: string): (r: string)
    ensures |r| <= |s| && r == s[..|r|]
    ensures 'T' !in r
    ensures |r| < |s| ==> s[|r|] == 'T'
  {
    if 'T' in s then s[..FirstIndex(s, 'T')] else s
  }

  /** Cutting at "T" is the first piece of splitting at "T". */
  lemma CutAtTIsFirstPiece(s: string)
    ensures CutAtT(s) == Split(s, 'T')[0]
  {
  }

  /**
    `to_internal_value`: a string is cut at "T" and then parsed as a date;
    a date passes as it is; anything else (null, a datetime object, a
    number) is refused.
  */
  function DateFieldValue(v: Json, parseDate: string -> Option<Date>): (r: Option<Date>)
    ensures v.JStr? ==> r == parseDate(CutAtT(v.s))
    ensures v.JDate? ==> r == Some(v.d)
    ensures !v.JStr? && !v.JDate? ==> r.None?
  {
    match v
    case JStr(s) => parseDate(CutAtT(s))
    case JDate(d) => Some(d)
    case _ => None
  }

  /** A date-time string reads as the date before its "T": the time of day is ignored. */
  lemma DateTimeStringDate(d: string, t: string, parseDate: string -> Option<Date>)
    requires 'T' !in d
    ensures DateFieldValue(JStr(d + "T" + t), parseDate) == parseDate(d)
    ensures DateFieldValue(JStr(d), parseDate) == parseDate(d)
  {
    var s := d + "T" + t;
    var i := FirstIndex(s, 'T');
    assert s[|d|] == 'T';
    assert s[..|d|] == d;
    assert i == |d|;
  }

  // ---------------------------------------------------------------
  // tipo_servicio aliases
  // ---------------------------------------------------------------

  /** The "frontend friendly" spellings accepted for `tipo_servicio`. */
  const TipoAliases: map<string, string> := map[
    "mediodia" := "mediodia",
    "medio_dia" := "mediodia",
    "medio-dia" := "mediodia",
    "dia_completo" := "dia_Completo",
    "d\U{ed}a completo" := "dia_Completo",
    "dia completo" := "dia_Completo",
    "circuito" := "circuito",
    "crucero" := "crucero"]

  /** The stripped value mapped through the alias table; values it does not list pass through. */
  function NormalizeTipo(ts: string): string {
    var t := Trim(ts);
    if t in TipoAliases then TipoAliases[t] else t
  }

  /** Every alias target is a key of TIPO_CHOICES, and the table maps a target to itself or not at all. */
  lemma AliasTargetsAreChoices()
    ensures forall k :: k in TipoAliases ==> TipoAliases[k] in TipoChoices
    ensures forall k :: k in TipoAliases ==>
      TipoAliases[k] !in TipoAliases || TipoAliases[TipoAliases[k]] == TipoAliases[k]
  {
    assert "dia_Completo" != "dia_completo";
  }

  /** A listed spelling normalises to one of the service-type choices; any other value is only stripped. */
  lemma NormalizeTipoChoices(ts: string)
    ensures Trim(ts) in TipoAliases ==> NormalizeTipo(ts) in TipoChoices
    ensures Trim(ts) !in TipoAliases ==> NormalizeTipo(ts) == Trim(ts)
  {
    AliasTargetsAreChoices();
  }

  /** Normalising twice gives the same result as normalising once. */
  lemma NormalizeTipoIdempotent(ts: string)
    ensures NormalizeTipo(NormalizeTipo(ts)) == NormalizeTipo(ts)
  {
    var t := Trim(ts);
    TrimIdempotent(ts);
    if t in TipoAliases {
      AliasTargetsAreChoices();
      NormalizeChoice(TipoAliases[t]);
    }
  }

  /** A service-type choice is stripped and normalises to itself or is not listed at all. */
  lemma NormalizeChoice(c: string)
    requires c in TipoChoices
    ensures NormalizeTipo(c) == c
  {
    if c == "dia_Completo" {
      TrimOfTrimmed("dia_Completo");
      assert "dia_Completo" !in TipoAliases by {
        assert "dia_Completo" != "dia_completo";
      }
    } else if c == "mediodia" {
      TrimOfTrimmed("mediodia");
    } else if c == "circuito" {
      TrimOfTrimmed("circuito");
    } else {
      TrimOfTrimmed("crucero");
    }
  }

  // ---------------------------------------------------------------
  // String cleaning shared by the order serializers
  // ---------------------------------------------------------------

  /** The value of field `k` once the fields named in `keys` are stripped. */
  function StripValue(k: string, v: Json, keys: seq<string>): Json {
    if k in keys && v.JStr? then JStr(Trim(v.s)) else v
  }

  /** The loop `for k in keys: if k in d and isinstance(d[k], str): d[k] = d[k].strip()`. */
  method StripStrings(data: Dict, keys: seq<string>) returns (out: Dict)
    ensures out.Keys == data.Keys
    ensures forall k :: k in data ==> out[k] == StripValue(k, data[k], keys)
  {
    out := data;
    for i := 0 to |keys|
      invariant out.Keys == data.Keys
      invariant forall x :: x in data ==> out[x] == StripValue(x, data[x], keys[..i])
    {
      var k := keys[i];
      ghost var prev := out;
      if k in out && out[k].JStr? {
        out := out[k := JStr(Trim(out[k].s))];
      }
      assert keys[..i + 1] == keys[..i] + [k];
      forall x | x in data
        ensures out[x] == StripValue(x, data[x], keys[..i + 1])
      {
        assert x in keys[..i + 1] <==> x in keys[..i] || x == k;
        if x == k && data[x].JStr? {
          TrimIdempotent(data[x].s);
        }
      }
    }
    assert keys[..|keys|] == keys;
  }

  // ---------------------------------------------------------------
  // PedidoSerializer.create
  // ---------------------------------------------------------------

  datatype CreateError =
    | NotAuthenticated
    | CompanyRequiredForStaff
    | NoCompanyOnProfile
    | NoSuchCompany(nombre: string)
    | AmbiguousCompany(nombre: string)

  /** `Empresa.objects.filter(nombre=nombre)`. */
  function CompaniesNamed(empresas: seq<Empresa>, nombre: string): (r: seq<Empresa>)
    ensures forall e :: e in r <==> e in empresas && e.nombre == nombre
  {
    if empresas == [] then []
    else if empresas[0].nombre == nombre then [empresas[0]] + CompaniesNamed(empresas[1..], nombre)
    else CompaniesNamed(empresas[1..], nombre)
  }

  /**
    The company of an order created without one: staff must name it
    themselves; anyone else gets the one company whose name is exactly the
    stripped company name on their profile. `Empresa.objects.get` fails
    when no company, or more than one, has that name.
  */
  function ResolveCompany(u: User, empresas: seq<Empresa>): Result<Empresa, CreateError> {
    if u.isStaff then Err(CompanyRequiredForStaff)
    else
      var nombre := Trim(u.empresa);
      if nombre == "" then Err(NoCompanyOnProfile)
      else
        var matches := CompaniesNamed(empresas, nombre);
        if |matches| == 0 then Err(NoSuchCompany(nombre))
        else if |matches| > 1 then Err(AmbiguousCompany(nombre))
        else Ok(matches[0])
  }

  /**
    Staff are refused, an empty profile company is refused, a name no
    company has is refused; a resolved company is the only stored company
    with the profile's stripped company name, and one is resolved exactly
    when there is exactly one such company.
  */
  lemma ResolveCompanyOutcomes(u: User, empresas: seq<Empresa>)
    ensures var r := ResolveCompany(u, empresas);
      && (u.isStaff ==> r == Err(CompanyRequiredForStaff))
      && (!u.isStaff && Trim(u.empresa) == "" ==> r == Err(NoCompanyOnProfile))
      && ((!u.isStaff && Trim(u.empresa) != "" && forall e :: e in empresas ==> e.nombre != Trim(u.empresa))
          ==> r == Err(NoSuchCompany(Trim(u.empresa))))
      && (r.Ok? ==> !u.isStaff && r.value in empresas && r.value.nombre == Trim(u.empresa))
      && (r.Ok? ==> forall e :: e in empresas && e.nombre == Trim(u.empresa) ==> e == r.value)
      && (r.Ok? <==> !u.isStaff && Trim(u.empresa) != "" && |CompaniesNamed(empresas, Trim(u.empresa))| == 1)
  {
    var nombre := Trim(u.empresa);
    var matches := CompaniesNamed(empresas, nombre);
    if !u.isStaff && nombre != "" {
      if |matches| > 1 {
        assert matches[1] in matches;
      } else if |matches| == 1 {
        assert matches[0] in matches;
        assert forall e :: e in matches ==> e == matches[0];
      } else {
        assert forall e :: e in empresas && e.nombre == nombre ==> e in matches;
      }
    }
  }

  /** The string fields `PedidoSerializer.create` strips. */
  const CreateStripKeys: seq<string> := ["excursion", "lugar_entrega", "lugar_recogida", "notas", "bono", "guia", "tipo_servicio", "estado"]

  /**
    What `create` does with the owner fields once the requester is
    authenticated: the requester becomes the order's user; a truthy
    company is kept; a missing or empty one is the company resolved from
    the requester's profile, and the resolution's error is the outcome when
    that fails. The keys are those given plus `user` and `empresa`.
  */
  predicate OwnerAssigned(data: Dict, user: User, empresas: seq<Empresa>, r: Result<Dict, CreateError>) {
    && (r.Ok? ==> r.value.Keys == data.Keys + {"user", "empresa"} && r.value["user"] == JRef(user.id))
    && (Truthy(Get(data, "empresa")) ==> r.Ok? && r.value["empresa"] == data["empresa"])
    && (!Truthy(Get(data, "empresa")) ==>
          match ResolveCompany(user, empresas)
          case Err(e) => r == Err(e)
          case Ok(c) => r.Ok? && r.value["empresa"] == JRef(c.id))
  }

  /**
    `PedidoSerializer.create` up to the insert: the requester must be
    authenticated and becomes the order's user; a missing or empty company
    is resolved from the requester's profile; the listed string fields are
    stripped and every other field passes through.
  */
  method CreatePedido(data: Dict, requester: Option<User>, empresas: seq<Empresa>) returns (r: Result<Dict, CreateError>)
    ensures requester.None? || !requester.value.isAuthenticated ==> r == Err(NotAuthenticated)
    ensures requester.Some? && requester.value.isAuthenticated ==> OwnerAssigned(data, requester.value, empresas, r)
    ensures r.Ok? ==> forall k :: k in data && k != "user" && k != "empresa" ==>
      r.value[k] == StripValue(k, data[k], CreateStripKeys)
  {
    if requester.None? || !requester.value.isAuthenticated {
      r := Err(NotAuthenticated);
    } else {
      var owned := AssignOwner(data, requester.value, empresas);
      if owned.Err? {
        r := Err(owned.error);
      } else {
        assert "user" !in CreateStripKeys && "empresa" !in CreateStripKeys;
        var cleaned := StripStrings(owned.value, CreateStripKeys);
        r := Ok(cleaned);
        StrippedOwnerAssigned(data, requester.value, empresas, owned.value, cleaned);
      }
    }
  }

  /** Stripping the listed fields leaves the owner fields as they were. */
  lemma StrippedOwnerAssigned(data: Dict, user: User, empresas: seq<Empresa>, owned: Dict, cleaned: Dict)
    requires OwnerAssigned(data, user, empresas, Ok(owned))
    requires cleaned.Keys == owned.Keys
    requires cleaned["user"] == owned["user"] && cleaned["empresa"] == owned["empresa"]
    ensures OwnerAssigned(data, user, empresas, Ok(cleaned))
  {
  }

  /** The first half of `create`: the owner fields, every other field as given. */
  method AssignOwner(data: Dict, user: User, empresas: seq<Empresa>) returns (r: Result<Dict, CreateError>)
    ensures OwnerAssigned(data, user, empresas, r)
    ensures r.Ok? ==> forall k :: k in data && k != "user" && k != "empresa" ==> r.value[k] == data[k]
  {
    var validated := data["user" := JRef(user.id)];
    assert Get(validated, "empresa") == Get(data, "empresa");
    if !Truthy(Get(validated, "empresa")) {
      var company := ResolveCompany(user, empresas);
      if company.Err? {
        return Err(company.error);
      }
      validated := validated["empresa" := JRef(company.value.id)];
    }
    r := Ok(validated);
  }

  // ---------------------------------------------------------------
  // PedidoOpsWriteSerializer.validate
  // ---------------------------------------------------------------

  /** The string fields `PedidoOpsWriteSerializer.validate` strips. */
  const OpsStripKeys: seq<string> := ["excursion", "lugar_entrega", "lugar_recogida", "notas", "bono", "guia", "estado"]

  /** Both dates are present and the end date is strictly earlier than the start date. */
  predicate EndsBeforeStart(attrs: Dict) {
    var fi := Get(attrs, "fecha_inicio");
    var ff := Get(attrs, "fecha_fin");
    fi.JDate? && ff.JDate? && ff.d < fi.d
  }

  /** What `validate` makes of the value of field `k`. */
  function OpsCleaned(k: string, v: Json): Json {
    if k == "tipo_servicio" && v.JStr? && v.s != "" then JStr(NormalizeTipo(v.s))
    else if k == "emisores" && v == JStr("") then JNull
    else StripValue(k, v, OpsStripKeys)
  }

  /**
    `PedidoOpsWriteSerializer.validate`: rejects an end date before the
    start date, normalises a non-empty service type, turns an empty
    `emisores` string into None and strips the listed string fields.
  */
  method ValidateOpsWrite(attrs: Dict) returns (r: Result<Dict, string>)
    ensures r.Err? <==> EndsBeforeStart(attrs)
    ensures r.Ok? ==> r.value.Keys == attrs.Keys
    ensures r.Ok? ==> forall k :: k in attrs ==> r.value[k] == OpsCleaned(k, attrs[k])
  {
    var fi := Get(attrs, "fecha_inicio");
    var ff := Get(attrs, "fecha_fin");
    if fi.JDate? && ff.JDate? && ff.d < fi.d {
      return Err("fecha_fin: Debe ser >= fecha_inicio.");
    }
    var a := NormalizeOpsFields(attrs);
    assert "tipo_servicio" !in OpsStripKeys && "emisores" !in OpsStripKeys;
    var cleaned := StripStrings(a, OpsStripKeys);
    r := Ok(cleaned);
  }

  /** The service-type normalisation and the empty `emisores` replacement of `validate`. */
  method NormalizeOpsFields(attrs: Dict) returns (a: Dict)
    ensures a.Keys == attrs.Keys
    ensures forall k :: k in attrs && k != "tipo_servicio" && k != "emisores" ==> a[k] == attrs[k]
    ensures "tipo_servicio" in attrs ==> a["tipo_servicio"] == OpsCleaned("tipo_servicio", attrs["tipo_servicio"])
    ensures "emisores" in attrs ==> a["emisores"] == OpsCleaned("emisores", attrs["emisores"])
  {
    assert "tipo_servicio" !in OpsStripKeys && "emisores" !in OpsStripKeys && "emisores" != "tipo_servicio";
    a := attrs;
    var ts := Get(attrs, "tipo_servicio");
    if ts.JStr? && ts.s != "" {
      a := a["tipo_servicio" := JStr(NormalizeTipo(ts.s))];
    }
    if "emisores" in attrs && attrs["emisores"] == JStr("") {
      a := a["emisores" := JNull];
    }
  }

  /** Equal start and end dates are accepted. */
  lemma SameDayAccepted(attrs: Dict, d: Date)
    requires Get(attrs, "fecha_inicio") == JDate(d) && Get(attrs, "fecha_fin") == JDate(d)
    ensures !EndsBeforeStart(attrs)
  {
  }

  /**
    The date fields of `PedidoOpsWriteSerializer`: `fecha_inicio` is
    required and not nullable, `fecha_fin` optional and nullable; both take
    a date or a date-time string as a date. Other keys pass unchanged.
  */
  function OpsDateFields(raw: Dict, parseDate: string -> Option<Date>): (r: Result<Dict, string>)
    ensures r.Ok? <==>
      && "fecha_inicio" in raw && DateFieldValue(raw["fecha_inicio"], parseDate).Some?
      && ("fecha_fin" !in raw || raw["fecha_fin"] == JNull || DateFieldValue(raw["fecha_fin"], parseDate).Some?)
    ensures r.Ok? ==>
      && r.value.Keys == raw.Keys
      && r.value["fecha_inicio"] == JDate(DateFieldValue(raw["fecha_inicio"], parseDate).value)
      && ("fecha_fin" in raw && raw["fecha_fin"] == JNull ==> r.value["fecha_fin"] == JNull)
      && ("fecha_fin" in raw && raw["fecha_fin"] != JNull ==> r.value["fecha_fin"] == JDate(DateFieldValue(raw["fecha_fin"], parseDate).value))
      && (forall k :: k in raw && k != "fecha_inicio" && k != "fecha_fin" ==> r.value[k] == raw[k])
  {
    if "fecha_inicio" !in raw then Err("fecha_inicio: required")
    else match DateFieldValue(raw["fecha_inicio"], parseDate)
      case None => Err("fecha_inicio: invalid date")
      case Some(fi) =>
        var withStart := raw["fecha_inicio" := JDate(fi)];
        if "fecha_fin" !in raw || raw["fecha_fin"] == JNull then Ok(withStart)
        else match DateFieldValue(raw["fecha_fin"], parseDate)
          case None => Err("fecha_fin: invalid date")
          case Some(ff) => Ok(withStart["fecha_fin" := JDate(ff)])
  }

  /**
    The ops board's write: the date fields are read, then `validate` runs
    on the result.
  */
  method OpsWrite(raw: Dict, parseDate: string -> Option<Date>) returns (r: Result<Dict, string>)
    ensures OpsDateFields(raw, parseDate).Err? ==> r == OpsDateFields(raw, parseDate)
    ensures OpsDateFields(raw, parseDate).Ok? ==> (r.Err? <==> EndsBeforeStart(OpsDateFields(raw, parseDate).value))
    ensures r.Ok? ==> r.value.Keys == raw.Keys
    ensures r.Ok? ==> forall k :: k in raw ==> r.value[k] == OpsCleaned(k, OpsDateFields(raw, parseDate).value[k])
  {
    var dated := OpsDateFields(raw, parseDate);
    if dated.Err? {
      return dated;
    }
    r := ValidateOpsWrite(dated.value);
  }

  /**
    A start given as a date-time and an end given as the bare date of the
    same day are accepted: the time of day never makes the end earlier.
  */
  lemma OpsSameDayDateTime(raw: Dict, parseDate: string -> Option<Date>, d: string, t: string, day: Date)
    requires 'T' !in d && parseDate(d) == Some(day)
    requires "fecha_inicio" in raw && raw["fecha_inicio"] == JStr(d + "T" + t)
    requires "fecha_fin" in raw && raw["fecha_fin"] == JStr(d)
    ensures OpsDateFields(raw, parseDate).Ok?
    ensures !EndsBeforeStart(OpsDateFields(raw, parseDate).value)
  {
    DateTimeStringDate(d, t, parseDate);
  }

  // ---------------------------------------------------------------
  // PedidoCruceroSerializer: one manifest row
  // ---------------------------------------------------------------

  /** The parsers the date and time fields delegate to. */
  datatype Parsers = Parsers(date: string -> Option<Date>, time: string -> Option<string>)

  /** The decimal text of an integer has no whitespace at either end and is not empty. */
  lemma IntTextTrimmed(n: int)
    ensures IsTrimmed(IntText(n)) && Trim(IntText(n)) == IntText(n) && IntText(n) != ""
    ensures '\0' !in IntText(n)
  {
    var m := if n < 0 then -n else n;
    NatTextDigits(m);
    if n < 0 {
      assert IntText(n)[1..] == NatText(m);
    }
    TrimOfTrimmed(IntText(n));
  }

  /**
    A character field: a string or an integer, stripped; blank only when
    the field allows it; at most `maxLength` characters after stripping;
    no NUL character (the framework's `ProhibitNullCharactersValidator`).
  */
  function CharValue(v: Json, allowBlank: bool, maxLength: nat): (r: Option<string>)
    ensures r.Some? ==> IsTrimmed(r.value) && |r.value| <= maxLength && (r.value == "" ==> allowBlank) && '\0' !in r.value
    ensures v.JStr? ==> (r.Some? <==> (Trim(v.s) != "" || allowBlank) && |Trim(v.s)| <= maxLength && '\0' !in Trim(v.s))
    ensures v.JStr? && r.Some? ==> r.value == Trim(v.s)
    ensures v.JInt? ==> (r.Some? <==> |IntText(v.n)| <= maxLength)
    ensures v.JInt? && r.Some? ==> r.value == IntText(v.n)
    ensures !v.JStr? && !v.JInt? ==> r.None?
  {
    var text := match v
      case JStr(s) => Some(s)
      case JInt(n) => (IntTextTrimmed(n); Some(IntText(n)))
      case _ => None;
    if text.None? then None
    else
      var t := Trim(text.value);
      if t == "" then (if allowBlank then Some("") else None)
      else if |t| <= maxLength && '\0' !in t then Some(t)
      else None
  }

  /** A required character field: present, non-blank, stripped and within the length. */
  function RequiredChar(raw: Dict, k: string, maxLength: nat): (r: Option<string>)
    ensures r.Some? ==> k in raw && r.value != "" && IsTrimmed(r.value) && |r.value| <= maxLength
    ensures k !in raw || Get(raw, k) == JStr("") || Get(raw, k) == JNull ==> r.None?
  {
    if k in raw then CharValue(raw[k], false, maxLength) else None
  }

  /** A required text field holding only whitespace is refused as blank. */
  lemma BlankRefused(raw: Dict, k: string, maxLength: nat)
    requires k in raw && raw[k].JStr?
    requires forall i :: 0 <= i < |raw[k].s| ==> IsSpace(raw[k].s[i])
    ensures RequiredChar(raw, k, maxLength).None?
  {
    TrimEmptyIff(raw[k].s);
  }

  /**
    An optional character field; a missing one stays out of the validated
    data and takes the model default "" when a row is inserted.
  */
  function OptionalChar(raw: Dict, k: string, maxLength: nat): (r: Option<string>)
    ensures r.Some? ==> IsTrimmed(r.value) && |r.value| <= maxLength
    ensures k !in raw ==> r == Some("")
  {
    if k in raw then CharValue(raw[k], true, maxLength) else Some("")
  }

  /** The strings `re.sub(r"\.0*\s*$", "", s)` reduces to nothing: zeros followed by whitespace. */
  predicate ZerosThenSpace(s: string) {
    var t := TrimEnd(s);
    forall i :: 0 <= i < |t| ==> t[i] == '0'
  }

  /**
    `re.sub(r"\.0*\s*$", "", s)`: a match can only start at the last dot,
    so the text from that dot on is dropped when what follows it is zeros
    and then whitespace; otherwise the string is unchanged.
  */
  function StripDecimal(s: string): (r: string)
    ensures '.' !in s ==> r == s
    ensures r != s ==> |r| < |s| && r == s[..|r|] && s[|r|] == '.' && '.' !in s[|r| + 1..] && ZerosThenSpace(s[|r| + 1..])
  {
    if '.' in s then
      var d := LastIndex(s, '.');
      if ZerosThenSpace(s[d + 1..]) then s[..d] else s
    else s
  }

  /**
    `IntegerField.to_internal_value`: an integer as it is; a string of at
    most 1000 characters with any ".0…" tail dropped and then read by
    `int()`; anything else is invalid.
  */
  function IntegerValue(v: Json): (r: Option<int>)
    ensures v.JInt? ==> r == Some(v.n)
    ensures v.JStr? && |v.s| > 1000 ==> r.None?
    ensures r.Some? ==> v.JInt? || v.JStr?
  {
    match v
    case JInt(n) => Some(n)
    case JStr(s) => if |s| > 1000 then None else ParseInt(StripDecimal(s))
    case _ => None
  }

  /** The decimal text of an integer is accepted as that integer. */
  lemma IntegerTextAccepted(n: int)
    requires |IntText(n)| <= 1000
    ensures IntegerValue(JStr(IntText(n))) == Some(n)
  {
    IntTextNoDot(n);
    ParseIntText(n);
  }

  /** After a text with no dot and a dot, the tail is dropped exactly when it is zeros and then whitespace. */
  lemma StripDecimalAfterDot(t: string, tail: string)
    requires '.' !in t && '.' !in tail
    ensures StripDecimal(t + "." + tail) == if ZerosThenSpace(tail) then t else t + "." + tail
  {
    var s := t + "." + tail;
    var d := LastIndex(s, '.');
    assert s[|t|] == '.';
    assert d == |t|;
    assert s[d + 1..] == tail;
    assert s[..d] == t;
  }

  /** Text with a dot inside is never an integer for `int()`. */
  lemma ParseIntRefusesDot(s: string)
    requires IsTrimmed(s) && '.' in s
    ensures ParseInt(s).None?
  {
    TrimOfTrimmed(s);
    var i := FirstIndex(s, '.');
    if i > 0 {
      assert s[1..][i - 1] == '.';
    }
  }

  /** A zero fraction after dot-free text is dropped before `int()` reads the text. */
  lemma ZeroTailDropped(t: string, tail: string)
    requires '.' !in t && '.' !in tail && ZerosThenSpace(tail) && |t| + 1 + |tail| <= 1000
    ensures IntegerValue(JStr(t + "." + tail)) == ParseInt(t)
  {
    StripDecimalAfterDot(t, tail);
  }

  /** A fraction that is not zeros stays, and its dot makes the text unreadable for `int()`. */
  lemma OtherTailRefused(t: string, tail: string)
    requires '.' !in t && '.' !in tail && !ZerosThenSpace(tail) && |t| + 1 + |tail| <= 1000
    requires IsTrimmed(t + "." + tail)
    ensures IntegerValue(JStr(t + "." + tail)).None?
  {
    var s := t + "." + tail;
    StripDecimalAfterDot(t, tail);
    assert s[|t|] == '.';
    ParseIntRefusesDot(s);
  }

  /** A zero fraction is accepted: "12.0" reads as 12. */
  lemma IntegerZeroFractionAccepted(n: int)
    requires |IntText(n)| <= 998
    ensures IntegerValue(JStr(IntText(n) + ".0")) == Some(n)
  {
    var t := IntText(n);
    IntTextNoDot(n);
    assert TrimEnd("0") == "0";
    ZeroTailDropped(t, "0");
    assert t + "." + "0" == t + ".0";
    ParseIntText(n);
  }

  /** A non-zero fraction is refused: "12.5" is not an integer. */
  lemma IntegerFractionRefused(n: int)
    requires |IntText(n)| <= 998
    ensures IntegerValue(JStr(IntText(n) + ".5")).None?
  {
    var t := IntText(n);
    IntTextNoDot(n);
    IntTextTrimmed(n);
    assert TrimEnd("5") == "5";
    assert t + "." + "5" == t + ".5";
    OtherTailRefused(t, "5");
  }

  /** `pax`: an integer field (numeric text included) within the column's range 0..2147483647. */
  function PaxValue(raw: Dict): (r: Option<nat>)
    ensures r.Some? ==> "pax" in raw && IntegerValue(raw["pax"]) == Some(r.value as int) && r.value <= 2147483647
    ensures "pax" in raw && IntegerValue(raw["pax"]).Some? && 0 <= IntegerValue(raw["pax"]).value <= 2147483647 ==> r.Some?
  {
    if "pax" !in raw then None
    else match IntegerValue(raw["pax"])
      case Some(n) => if 0 <= n <= 2147483647 then Some(n) else None
      case None => None
  }

  /** `arrival_time`: optional and nullable; a string goes through the time parser. */
  function ArrivalValue(raw: Dict, p: Parsers): (r: Option<Option<string>>)
    ensures "arrival_time" !in raw || raw["arrival_time"] == JNull ==> r == Some(None)
    ensures Get(raw, "arrival_time").JStr? ==> (r.Some? <==> p.time(raw["arrival_time"].s).Some?)
    ensures Get(raw, "arrival_time").JStr? && r.Some? ==> r.value == p.time(raw["arrival_time"].s)
  {
    if "arrival_time" !in raw || raw["arrival_time"] == JNull then Some(None)
    else if raw["arrival_time"].JStr? then
      match p.time(raw["arrival_time"].s)
      case Some(t) => Some(Some(t))
      case None => None
    else None
  }

  /**
    `service_date`, a required date field that does not allow null: a date
    object passes, a non-empty string goes through the date parser, and
    null, the empty string (which no date format matches) and anything
    else are refused.
  */
  function ServiceDateValue(raw: Dict, p: Parsers): (r: Option<Date>)
    ensures Get(raw, "service_date") == JNull || Get(raw, "service_date") == JStr("") ==> r.None?
    ensures Get(raw, "service_date").JDate? ==> r == Some(raw["service_date"].d)
    ensures Get(raw, "service_date").JStr? && raw["service_date"].s != "" ==> r == p.date(raw["service_date"].s)
    ensures r.Some? ==> Get(raw, "service_date").JDate? || Get(raw, "service_date").JStr?
  {
    if "service_date" !in raw then None
    else match raw["service_date"]
      case JStr(s) => if s == "" then None else p.date(s)
      case JDate(d) => Some(d)
      case _ => None
  }

  /**
    `validate`: service_date and ship must both be truthy. The date is a
    date object once the field has accepted it, so only an empty ship fails.
  */
  predicate ManifestAttrsValid(f: CruiseFields) {
    f.ship != ""
  }

  /**
    A payload row checked field by field (printing_date, id and the audit
    timestamps are read-only and ignored) and then by `validate`. A
    missing optional field takes the model default.
  */
  function ValidateCruiseRow(raw: Dict, p: Parsers): (r: Option<CruiseFields>)
    ensures r.Some? ==> "service_date" in raw && "ship" in raw && r.value.ship != ""
    ensures r.Some? ==> (IsTrimmed(r.value.ship) && IsTrimmed(r.value.supplier) && IsTrimmed(r.value.terminal)
      && IsTrimmed(r.value.language) && IsTrimmed(r.value.status) && r.value.status != "")
    ensures Get(raw, "service_date") == JNull || Get(raw, "service_date") == JStr("") ==> r.None?
    ensures Get(raw, "ship") == JNull || Get(raw, "ship") == JStr("") ==> r.None?
    ensures r.Some? && "emergency_contact" !in raw ==> r.value.emergencyContact == ""
    ensures r.Some? && "language" !in raw ==> r.value.language == ""
    ensures r.Some? && "terminal" !in raw ==> r.value.terminal == ""
    ensures r.Some? && "arrival_time" !in raw ==> r.value.arrivalTime.None?
  {
    var supplier := RequiredChar(raw, "supplier", 200);
    var contact := OptionalChar(raw, "emergency_contact", 100);
    var date := ServiceDateValue(raw, p);
    var ship := RequiredChar(raw, "ship", 100);
    var sign := RequiredChar(raw, "sign", 20);
    var excursion := RequiredChar(raw, "excursion", 200);
    var language := OptionalChar(raw, "language", 50);
    var pax := PaxValue(raw);
    var arrival := ArrivalValue(raw, p);
    var status := RequiredChar(raw, "status", 20);
    var terminal := OptionalChar(raw, "terminal", 50);
    if supplier.None? || contact.None? || date.None? || ship.None? || sign.None? || excursion.None?
      || language.None? || pax.None? || arrival.None? || status.None? || terminal.None?
    then None
    else
      var f := CruiseFields(supplier.value, contact.value, date.value, ship.value, sign.value, excursion.value,
        language.value, pax.value, arrival.value, status.value, terminal.value);
      if ManifestAttrsValid(f) then Some(f) else None
  }

  /** A required text field given as a string that is not blank once stripped, fits its length and holds no NUL. */
  predicate Filled(raw: Dict, k: string, maxLength: nat) {
    k in raw && raw[k].JStr? && Trim(raw[k].s) != "" && |Trim(raw[k].s)| <= maxLength && '\0' !in Trim(raw[k].s)
  }

  /** An optional text field that is missing, or a string that fits its length once stripped and holds no NUL. */
  predicate Fits(raw: Dict, k: string, maxLength: nat) {
    k !in raw || (raw[k].JStr? && |Trim(raw[k].s)| <= maxLength && '\0' !in Trim(raw[k].s))
  }

  /** Every character field the payload carries is a string. */
  predicate TextPayload(raw: Dict) {
    forall k :: k in raw && k in CharKeys ==> raw[k].JStr?
  }

  const CharKeys: set<string> := {"supplier", "emergency_contact", "ship", "sign", "excursion", "language", "status", "terminal"}

  /**
    For a payload whose character fields are strings, a row is accepted
    exactly when every field is acceptable, and the text fields it keeps
    are the stripped input strings.
  */
  lemma CruiseRowAcceptance(raw: Dict, p: Parsers)
    requires TextPayload(raw)
    ensures ValidateCruiseRow(raw, p).Some? <==>
      && Filled(raw, "supplier", 200) && Fits(raw, "emergency_contact", 100)
      && "service_date" in raw
      && (raw["service_date"].JDate? || (raw["service_date"].JStr? && raw["service_date"].s != "" && p.date(raw["service_date"].s).Some?))
      && Filled(raw, "ship", 100) && Filled(raw, "sign", 20) && Filled(raw, "excursion", 200)
      && Fits(raw, "language", 50)
      && "pax" in raw && IntegerValue(raw["pax"]).Some? && 0 <= IntegerValue(raw["pax"]).value <= 2147483647
      && ("arrival_time" !in raw || raw["arrival_time"] == JNull
          || (raw["arrival_time"].JStr? && p.time(raw["arrival_time"].s).Some?))
      && Filled(raw, "status", 20) && Fits(raw, "terminal", 50)
    ensures ValidateCruiseRow(raw, p).Some? ==>
      var f := ValidateCruiseRow(raw, p).value;
      && f.supplier == Trim(raw["supplier"].s) && f.ship == Trim(raw["ship"].s) && f.sign == Trim(raw["sign"].s)
      && f.excursion == Trim(raw["excursion"].s) && f.status == Trim(raw["status"].s)
      && ("emergency_contact" in raw ==> f.emergencyContact == Trim(raw["emergency_contact"].s))
      && ("language" in raw ==> f.language == Trim(raw["language"].s))
      && ("terminal" in raw ==> f.terminal == Trim(raw["terminal"].s))
  {
    assert "supplier" in CharKeys && "emergency_contact" in CharKeys && "ship" in CharKeys && "sign" in CharKeys;
    assert "excursion" in CharKeys && "language" in CharKeys && "status" in CharKeys && "terminal" in CharKeys;
  }

  // ---------------------------------------------------------------
  // PedidoCruceroSerializer.create: upsert on (service_date, ship, sign)
  // ---------------------------------------------------------------

  datatype UpsertError = FinalAlreadyConfirmed

  /**
    The optional fields of the manifest serializer (`blank=True` or
    `null=True` on the model): they are in the validated data only when
    the payload has them.
  */
  const OptionalKeys: set<string> := {"emergency_contact", "language", "arrival_time", "terminal"}

  /** The optional fields the payload gives. */
  function GivenOptional(raw: Dict): (r: set<string>)
    ensures r <= OptionalKeys
    ensures forall k :: k in OptionalKeys ==> (k in r <==> k in raw)
  {
    set k | k in OptionalKeys && k in raw
  }

  /**
    `setattr` of every validated field on a stored row: the required
    fields always take the new value, an optional one only when the
    payload gave it.
  */
  function Overwrite(stored: CruiseFields, f: CruiseFields, given: set<string>): CruiseFields {
    f.(emergencyContact := if "emergency_contact" in given then f.emergencyContact else stored.emergencyContact,
      language := if "language" in given then f.language else stored.language,
      arrivalTime := if "arrival_time" in given then f.arrivalTime else stored.arrivalTime,
      terminal := if "terminal" in given then f.terminal else stored.terminal)
  }

  /**
    `a` comes before `b` under `ordering = ["-updated_at", "-uploaded_at"]`:
    written later, or written at the same time and uploaded later; rows
    tied on both come by the larger id.
  */
  predicate Before(a: CruiseRow, b: CruiseRow) {
    || a.updatedAt > b.updatedAt
    || (a.updatedAt == b.updatedAt && a.uploadedAt > b.uploadedAt)
    || (a.updatedAt == b.updatedAt && a.uploadedAt == b.uploadedAt && a.id > b.id)
  }

  /**
    `PedidoCrucero.objects.filter(**key).first()`: the stored row with the
    key that no other row with the key comes before.
  */
  function LatestWithKey(rows: seq<CruiseRow>, k: SignKey): (r: Option<nat>)
    ensures r.Some? ==> r.value < |rows| && SignKeyOf(rows[r.value].fields) == k
    ensures r.Some? ==> forall j :: 0 <= j < |rows| && SignKeyOf(rows[j].fields) == k ==> !Before(rows[j], rows[r.value])
    ensures r.None? <==> forall j :: 0 <= j < |rows| ==> SignKeyOf(rows[j].fields) != k
  {
    if rows == [] then None
    else
      var last := |rows| - 1;
      var prev := LatestWithKey(rows[..last], k);
      if SignKeyOf(rows[last].fields) != k then prev
      else if prev.Some? && !Before(rows[last], rows[prev.value]) then prev
      else Some(last)
  }

  /** Among rows with distinct ids, at most one row with the key has no other row with the key before it. */
  lemma LatestUnique(rows: seq<CruiseRow>, k: SignKey, i: nat, i': nat)
    requires DistinctIds(rows)
    requires i < |rows| && i' < |rows|
    requires SignKeyOf(rows[i].fields) == k && SignKeyOf(rows[i'].fields) == k
    requires !Before(rows[i], rows[i']) && !Before(rows[i'], rows[i])
    ensures i == i'
  {
  }

  /** The number of stored rows with the key. */
  function CountWithKey(rows: seq<CruiseRow>, k: SignKey): nat {
    if rows == [] then 0
    else (if SignKeyOf(rows[0].fields) == k then 1 else 0) + CountWithKey(rows[1..], k)
  }

  /** The table and the next id after the upsert, or the refusal. */
  datatype Upserted = Upserted(rows: seq<CruiseRow>, nextId: nat, id: nat)

  /**
    An incoming "preliminary" row may not replace a stored "final" one;
    the latest stored row with the key otherwise has the validated fields
    written over it and its `updated_at` stamped; with no stored row one is
    inserted with the next id, stamped with the current time.
  */
  function Upsert(rows: seq<CruiseRow>, nextId: nat, f: CruiseFields, given: set<string>, now: Timestamp): Result<Upserted, UpsertError> {
    match LatestWithKey(rows, SignKeyOf(f))
    case Some(i) =>
      if rows[i].fields.status == "final" && f.status == "preliminary" then Err(FinalAlreadyConfirmed)
      else Ok(Upserted(rows[i := rows[i].(fields := Overwrite(rows[i].fields, f, given), updatedAt := now)], nextId, rows[i].id))
    case None => Ok(Upserted(rows + [CruiseRow(nextId, now, now, now, f)], nextId + 1, nextId))
  }

  /** The upsert is refused exactly when the latest stored row with the key is final and the incoming one preliminary. */
  lemma UpsertRefusal(rows: seq<CruiseRow>, nextId: nat, f: CruiseFields, given: set<string>, now: Timestamp)
    requires DistinctIds(rows)
    ensures Upsert(rows, nextId, f, given, now).Err? <==>
      exists i :: 0 <= i < |rows| && SignKeyOf(rows[i].fields) == SignKeyOf(f)
        && (forall j :: 0 <= j < |rows| && SignKeyOf(rows[j].fields) == SignKeyOf(f) ==> !Before(rows[j], rows[i]))
        && rows[i].fields.status == "final" && f.status == "preliminary"
  {
    var m := LatestWithKey(rows, SignKeyOf(f));
    if m.Some? {
      forall i | 0 <= i < |rows| && SignKeyOf(rows[i].fields) == SignKeyOf(f)
          && (forall j :: 0 <= j < |rows| && SignKeyOf(rows[j].fields) == SignKeyOf(f) ==> !Before(rows[j], rows[i]))
        ensures i == m.value
      {
        LatestUnique(rows, SignKeyOf(f), i, m.value);
      }
    }
  }

  /**
    Over a stored row with the key, the table keeps its size and its key
    count and only the latest row with the key changes: its required
    fields take the new values, an optional field only when given, its
    id, printing date and upload time stay and its update time is now.
  */
  lemma UpsertOverwrites(rows: seq<CruiseRow>, nextId: nat, f: CruiseFields, given: set<string>, now: Timestamp)
    requires exists i :: 0 <= i < |rows| && SignKeyOf(rows[i].fields) == SignKeyOf(f)
    requires Upsert(rows, nextId, f, given, now).Ok?
    ensures LatestWithKey(rows, SignKeyOf(f)).Some?
    ensures var i := LatestWithKey(rows, SignKeyOf(f)).value;
      var u := Upsert(rows, nextId, f, given, now).value;
      var old_ := rows[i].fields;
      var g := u.rows[i].fields;
      && |u.rows| == |rows| && u.nextId == nextId && u.id == rows[i].id
      && u.rows[i].id == rows[i].id && u.rows[i].printingDate == rows[i].printingDate
      && u.rows[i].uploadedAt == rows[i].uploadedAt && u.rows[i].updatedAt == now
      && SignKeyOf(g) == SignKeyOf(f) && g.supplier == f.supplier && g.excursion == f.excursion
      && g.pax == f.pax && g.status == f.status
      && g.emergencyContact == (if "emergency_contact" in given then f.emergencyContact else old_.emergencyContact)
      && g.language == (if "language" in given then f.language else old_.language)
      && g.arrivalTime == (if "arrival_time" in given then f.arrivalTime else old_.arrivalTime)
      && g.terminal == (if "terminal" in given then f.terminal else old_.terminal)
      && (forall j :: 0 <= j < |rows| && j != i ==> u.rows[j] == rows[j])
      && CountWithKey(u.rows, SignKeyOf(f)) == CountWithKey(rows, SignKeyOf(f))
  {
    var i := LatestWithKey(rows, SignKeyOf(f)).value;
    var x := rows[i].(fields := Overwrite(rows[i].fields, f, given), updatedAt := now);
    CountReplaceSameKey(rows, i, x, SignKeyOf(f));
  }

  /** When the payload gives every optional field, the overwritten row holds exactly the validated fields. */
  lemma OverwriteAllGiven(stored: CruiseFields, f: CruiseFields, given: set<string>)
    requires OptionalKeys <= given
    ensures Overwrite(stored, f, given) == f
  {
    assert "emergency_contact" in OptionalKeys && "language" in OptionalKeys;
    assert "arrival_time" in OptionalKeys && "terminal" in OptionalKeys;
  }

  lemma {:induction false} CountReplaceSameKey(rows: seq<CruiseRow>, i: nat, x: CruiseRow, k: SignKey)
    requires i < |rows| && SignKeyOf(x.fields) == SignKeyOf(rows[i].fields)
    ensures CountWithKey(rows[i := x], k) == CountWithKey(rows, k)
  {
    var rows' := rows[i := x];
    if i > 0 {
      CountReplaceSameKey(rows[1..], i - 1, x, k);
      assert rows'[1..] == rows[1..][i - 1 := x];
    } else {
      assert rows'[1..] == rows[1..];
    }
  }

  /** With no stored row for the key, exactly one row is added, stamped now, and it is the only row with the key. */
  lemma UpsertInserts(rows: seq<CruiseRow>, nextId: nat, f: CruiseFields, given: set<string>, now: Timestamp)
    requires forall i :: 0 <= i < |rows| ==> SignKeyOf(rows[i].fields) != SignKeyOf(f)
    ensures Upsert(rows, nextId, f, given, now).Ok?
    ensures var u := Upsert(rows, nextId, f, given, now).value;
      && u.rows == rows + [CruiseRow(nextId, now, now, now, f)] && u.nextId == nextId + 1 && u.id == nextId
      && CountWithKey(u.rows, SignKeyOf(f)) == 1
  {
    CountAppend(rows, CruiseRow(nextId, now, now, now, f), SignKeyOf(f));
    CountAbsent(rows, SignKeyOf(f));
  }

  lemma {:induction false} CountAppend(rows: seq<CruiseRow>, x: CruiseRow, k: SignKey)
    ensures CountWithKey(rows + [x], k) == CountWithKey(rows, k) + (if SignKeyOf(x.fields) == k then 1 else 0)
  {
    if rows != [] {
      assert (rows + [x])[1..] == rows[1..] + [x];
      CountAppend(rows[1..], x, k);
    }
  }

  lemma {:induction false} CountAbsent(rows: seq<CruiseRow>, k: SignKey)
    requires forall i :: 0 <= i < |rows| ==> SignKeyOf(rows[i].fields) != k
    ensures CountWithKey(rows, k) == 0
  {
    if rows != [] {
      CountAbsent(rows[1..], k);
    }
  }

  /** The scan `.first()` performs: the latest stored row with the key, by one pass over the table. */
  method FindLatest(rows: seq<CruiseRow>, key: SignKey) returns (best: Option<nat>)
    ensures best == LatestWithKey(rows, key)
  {
    best := None;
    var i := 0;
    while i < |rows|
      invariant 0 <= i <= |rows|
      invariant best == LatestWithKey(rows[..i], key)
    {
      assert rows[..i + 1][..i] == rows[..i];
      if SignKeyOf(rows[i].fields) == key && (best.None? || Before(rows[i], rows[best.value])) {
        best := Some(i);
      }
      i := i + 1;
    }
    assert rows[..i] == rows;
  }

  /**
    `PedidoCruceroSerializer.create` on the manifest table: the table
    afterwards is the one `Upsert` describes, and a refused upsert leaves it
    as it was.
  */
  method UpsertBySign(db: Database, f: CruiseFields, given: set<string>, now: Timestamp) returns (r: Result<nat, UpsertError>)
    requires db.Valid()
    modifies db`cruises, db`nextCruiseId
    ensures db.Valid()
    ensures match Upsert(old(db.cruises), old(db.nextCruiseId), f, given, now)
      case Err(e) => r == Err(e) && db.cruises == old(db.cruises) && db.nextCruiseId == old(db.nextCruiseId)
      case Ok(u) => r == Ok(u.id) && db.cruises == u.rows && db.nextCruiseId == u.nextId
  {
    var best := FindLatest(db.cruises, SignKeyOf(f));
    if best.Some? {
      var existing := db.cruises[best.value];
      if existing.fields.status == "final" && f.status == "preliminary" {
        return Err(FinalAlreadyConfirmed);
      }
      db.cruises := db.cruises[best.value := existing.(fields := Overwrite(existing.fields, f, given), updatedAt := now)];
      r := Ok(existing.id);
    } else {
      db.cruises := db.cruises + [CruiseRow(db.nextCruiseId, now, now, now, f)];
      r := Ok(db.nextCruiseId);
      db.nextCruiseId := db.nextCruiseId + 1;
    }
  }
}
