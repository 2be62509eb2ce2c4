/**
  The `ordering` query parameter of the manifest listing: every value is
  either a bracketed list (parsed as JSON, or failing that as a Python
  literal) or a comma-separated list; the pieces are stripped, empty ones
  dropped, repeated ones kept at their first occurrence, and an empty
  outcome falls back to the default ordering.
*/
module CruiseOrdering {
  import opened Wrappers
  import opened Text
  import opened Seqs

  /**
    What the JSON parser, or failing that the literal parser, makes of a
    value starting with "[": a list (each element already turned into
    text by `str`), some other value, or nothing either parser accepts.
  */
  datatype Bracketed = ListOf(items: seq<string>) | NotAList | Unparsable

  /** A bracketed value neither parser accepts makes the request fail. */
  datatype OrderingError = UnparsableOrdering(item: string)

  /** The listing's default order, newest first. */
  const DefaultOrdering: seq<string> := ["-updated_at", "-uploaded_at"]

  /** Every field is non-empty and stripped. */
  predicate CleanFields(fs: seq<string>) {
    forall k :: 0 <= k < |fs| ==> fs[k] != "" && IsTrimmed(fs[k])
  }

  /** The fields one parameter value contributes. */
  function ItemFields(item: string, parse: string -> Bracketed): (r: Result<seq<string>, OrderingError>)
    ensures r.Ok? ==> CleanFields(r.value)
    ensures r.Err? <==> StartsWith(item, "[") && parse(item).Unparsable?
  {
    if StartsWith(item, "[") then
      match parse(item)
      case ListOf(xs) => Ok(CleanPieces(xs))
      case NotAList => Ok([])
      case Unparsable => Err(UnparsableOrdering(item))
    else Ok(CleanPieces(Split(item, ',')))
  }

  /** The fields of all values, value after value (defined by extending a prefix). */
  function CollectedFields(raw: seq<string>, parse: string -> Bracketed): (r: Result<seq<string>, OrderingError>)
    ensures r.Ok? ==> CleanFields(r.value)
  {
    if raw == [] then Ok([])
    else
      match CollectedFields(raw[..|raw| - 1], parse)
      case Err(e) => Err(e)
      case Ok(fs) =>
        match ItemFields(raw[|raw| - 1], parse)
        case Err(e) => Err(e)
        case Ok(more) => Ok(fs + more)
  }

  /**
    The ordering the listing applies: the collected fields without
    repeats, or the default when no value was given or none contributed a
    field. The result is never empty and has no field twice.
  */
  function Ordering(raw: seq<string>, parse: string -> Bracketed): (r: Result<seq<string>, OrderingError>)
    ensures r.Ok? ==> r.value != [] && CleanFields(r.value) && NoDup(r.value)
  {
    if raw == [] then Ok(DefaultOrdering)
    else
      match CollectedFields(raw, parse)
      case Err(e) => Err(e)
      case Ok(fs) =>
        var d := Dedup(fs);
        if d == [] then Ok(DefaultOrdering)
        else
          assert forall k :: 0 <= k < |d| ==> d[k] in fs;
          Ok(d)
  }

  /**
    `CruceroBulkView.get`, the parsing part: the fields of every value,
    without repeats, or the default ordering when there are none.
  */
  method ParseOrdering(raw: seq<string>, parse: string -> Bracketed) returns (r: Result<seq<string>, OrderingError>)
    ensures r == Ordering(raw, parse)
  {
    if raw == [] {
      return Ok(DefaultOrdering);
    }
    var collected := CollectFields(raw, parse);
    if collected.Err? {
      return Err(collected.error);
    }
    var unique := DropRepeats(collected.value);
    if unique == [] {
      return Ok(DefaultOrdering);
    }
    return Ok(unique);
  }

  /** The loop over the parameter values, stopping at the first one that fails to parse. */
  method CollectFields(raw: seq<string>, parse: string -> Bracketed) returns (r: Result<seq<string>, OrderingError>)
    ensures r == CollectedFields(raw, parse)
  {
    var fields: seq<string> := [];
    var i := 0;
    while i < |raw|
      invariant 0 <= i <= |raw|
      invariant CollectedFields(raw[..i], parse) == Ok(fields)
    {
      var item := raw[i];
      assert raw[..i + 1][..i] == raw[..i];
      if StartsWith(item, "[") {
        match parse(item)
        case Unparsable =>
          assert CollectedFields(raw[..i + 1], parse) == Err(UnparsableOrdering(item));
          CollectedErrPersists(raw, parse, i + 1);
          assert raw[..|raw|] == raw;
          return Err(UnparsableOrdering(item));
        case ListOf(xs) =>
          assert ItemFields(item, parse) == Ok(CleanPieces(xs));
          fields := fields + CleanPieces(xs);
        case NotAList =>
          assert ItemFields(item, parse) == Ok([]);
          assert fields + [] == fields;
      } else {
        assert ItemFields(item, parse) == Ok(CleanPieces(Split(item, ',')));
        fields := fields + CleanPieces(Split(item, ','));
      }
      i := i + 1;
    }
    assert raw[..|raw|] == raw;
    return Ok(fields);
  }

  /** The `dict.fromkeys` pass: each field kept at its first occurrence. */
  method DropRepeats(fields: seq<string>) returns (unique: seq<string>)
    ensures unique == Dedup(fields)
  {
    unique := [];
    var j := 0;
    while j < |fields|
      invariant 0 <= j <= |fields|
      invariant unique == Dedup(fields[..j])
    {
      DedupSnoc(fields[..j], fields[j]);
      assert fields[..j + 1] == fields[..j] + [fields[j]];
      if fields[j] !in unique {
        unique := unique + [fields[j]];
      }
      j := j + 1;
    }
    assert fields[..|fields|] == fields;
  }

  /** Once a value fails to parse, every longer prefix fails with the same error. */
  lemma {:induction false} CollectedErrPersists(raw: seq<string>, parse: string -> Bracketed, n: nat)
    requires n <= |raw| && CollectedFields(raw[..n], parse).Err?
    ensures CollectedFields(raw, parse) == CollectedFields(raw[..n], parse)
    decreases |raw| - n
  {
    if n < |raw| {
      assert raw[..n + 1][..n] == raw[..n];
      CollectedErrPersists(raw, parse, n + 1);
    } else {
      assert raw[..n] == raw;
    }
  }

  /** `x` is the non-empty stripped form of a comma-separated piece of one of the values. */
  predicate IsPieceOfSome(raw: seq<string>, x: string) {
    x != "" && exists i :: 0 <= i < |raw| && IsPieceOf(raw[i], x)
  }

  /** `x` is the stripped form of a piece of the value. */
  predicate IsPieceOf(item: string, x: string) {
    exists p :: p in Split(item, ',') && Trim(p) == x
  }

  lemma PieceOfSomeSnoc(raw: seq<string>, x: string)
    requires raw != []
    ensures IsPieceOfSome(raw, x) <==>
      IsPieceOfSome(raw[..|raw| - 1], x) || (x != "" && IsPieceOf(raw[|raw| - 1], x))
  {
    if IsPieceOfSome(raw, x) && !IsPieceOf(raw[|raw| - 1], x) {
      PieceOfSomeShrinks(raw, x);
    }
    if IsPieceOfSome(raw[..|raw| - 1], x) {
      PieceOfSomeGrows(raw, x);
    }
  }

  lemma PieceOfSomeShrinks(raw: seq<string>, x: string)
    requires raw != [] && IsPieceOfSome(raw, x) && !IsPieceOf(raw[|raw| - 1], x)
    ensures IsPieceOfSome(raw[..|raw| - 1], x)
  {
    var n := |raw| - 1;
    var i :| 0 <= i < |raw| && IsPieceOf(raw[i], x);
    assert i != n;
    assert raw[..n][i] == raw[i];
  }

  lemma PieceOfSomeGrows(raw: seq<string>, x: string)
    requires raw != [] && IsPieceOfSome(raw[..|raw| - 1], x)
    ensures IsPieceOfSome(raw, x)
  {
    var n := |raw| - 1;
    var i :| 0 <= i < n && IsPieceOf(raw[..n][i], x);
    assert raw[..n][i] == raw[i];
  }

  /**
    With plain comma-separated values, a field is collected exactly when
    it is the non-empty stripped form of a piece of some value.
  */
  lemma {:induction false} PlainFieldsMembers(raw: seq<string>, parse: string -> Bracketed, x: string)
    requires forall i :: 0 <= i < |raw| ==> !StartsWith(raw[i], "[")
    ensures CollectedFields(raw, parse).Ok?
    ensures x in CollectedFields(raw, parse).value <==> IsPieceOfSome(raw, x)
  {
    if raw != [] {
      var n := |raw| - 1;
      var pre := raw[..n];
      PlainFieldsMembers(pre, parse, x);
      CleanPiecesMembers(Split(raw[n], ','), x);
      PieceOfSomeSnoc(raw, x);
      var fs := CollectedFields(pre, parse).value;
      assert CollectedFields(raw, parse).value == fs + CleanPieces(Split(raw[n], ','));
    }
  }

  /**
    The parsed ordering keeps every collected field exactly once, in the
    order of first occurrence, unless nothing was collected.
  */
  lemma OrderingKeepsFirstOccurrences(raw: seq<string>, parse: string -> Bracketed)
    requires raw != [] && CollectedFields(raw, parse).Ok? && CollectedFields(raw, parse).value != []
    ensures Ordering(raw, parse).Ok?
    ensures var fs := CollectedFields(raw, parse).value;
      var d := Ordering(raw, parse).value;
      && (forall x :: x in d <==> x in fs)
      && (forall i, j :: 0 <= i < j < |d| ==> FirstPos(fs, d[i]) < FirstPos(fs, d[j]))
  {
    var fs := CollectedFields(raw, parse).value;
    assert fs[0] in Dedup(fs);
    DedupKeepsFirstOrder(fs);
  }

  /** No value, or values that contribute no field, give the default ordering. */
  lemma OrderingFallsBack(raw: seq<string>, parse: string -> Bracketed)
    requires raw == [] || CollectedFields(raw, parse) == Ok([])
    ensures Ordering(raw, parse) == Ok(DefaultOrdering)
  {
    if raw != [] {
      assert Dedup<string>([]) == [];
    }
  }
}
