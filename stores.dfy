/** The in-memory logic of the store routes: turning a fetched document into
    a response, moving one 3D model of a store, and the partial update that
    ignores fields left as None.  The database is abstracted away: what
    `find_one` returned is an input, and a `$set` write is a map union. */
module Stores {
  import opened Values

  /** A MongoDB document as a Python dict. */
  type Document = map<string, Value>

  datatype HttpError = HttpError(status: int, detail: string)

  datatype Result<T> = Ok(value: T) | Err(error: HttpError)

  /** What `find_one({"_id": ObjectId(store_id)})` came to: the id did not
      parse as an ObjectId, no document has it, or the document found. */
  datatype Lookup = InvalidId | NoDocument | Found(doc: Document)

  /** An exception the route does not catch. */
  const InternalError: HttpError := HttpError(500, "Internal Server Error")

  /** A document as the collection returns it: it has an `_id`, which `str()`
      can render. */
  predicate Stored(doc: Document) {
    "_id" in doc && Printable(doc["_id"])
  }

  // ---------------------------------------------------------------------
  // serialize_store

  /** serialize_store: None stays None; otherwise `_id` is replaced by its
      string form.  A stored document always has `_id`, so it is never the
      falsy empty dict. */
  function SerializeStore(store: Option<Document>): (r: Option<Document>)
    requires store.Some? ==> Stored(store.value)
    ensures r.None? <==> store.None?
    ensures r.Some? ==> && r.value.Keys == store.value.Keys
                        && r.value["_id"] == Str(PyStr(store.value["_id"]))
                        && forall k :: k in r.value && k != "_id" ==> r.value[k] == store.value[k]
  {
    match store
    case None => None
    case Some(doc) => Some(doc["_id" := Str(PyStr(doc["_id"]))])
  }

  /** Serializing an already serialized document changes nothing. */
  lemma SerializeStoreIdempotent(store: Option<Document>)
    requires store.Some? ==> Stored(store.value)
    ensures var once := SerializeStore(store);
      once.Some? ==> Stored(once.value) && SerializeStore(once) == once
  {
    if store.Some? {
      var once := SerializeStore(store).value;
      assert once["_id" := Str(PyStr(once["_id"]))] == once;
    }
  }

  /** An ObjectId `_id` comes out as its hex text. */
  lemma SerializeStoreObjectId(doc: Document, hex: string)
    requires "_id" in doc && doc["_id"] == ObjectId(hex)
    ensures SerializeStore(Some(doc)) == Some(doc["_id" := Str(hex)])
  {
  }

  // ---------------------------------------------------------------------
  // Fetching a store by id

  /** The id checks shared by the routes on one store: an id that does not
      parse is a 400, a parsed id without a document a 404. */
  function LoadStore(lookup: Lookup): (r: Result<Document>)
    ensures r.Ok? <==> lookup.Found?
    ensures r.Ok? ==> r.value == lookup.doc
    ensures r.Err? ==> r.error.status == (if lookup.InvalidId? then 400 else 404)
  {
    match lookup
    case InvalidId => Err(HttpError(400, "Invalid store ID format"))
    case NoDocument => Err(HttpError(404, "Store not found"))
    case Found(doc) => Ok(doc)
  }

  /** get_store */
  function GetStore(lookup: Lookup): (r: Result<Document>)
    requires lookup.Found? ==> Stored(lookup.doc)
    ensures lookup.InvalidId? ==> r == Err(HttpError(400, "Invalid store ID format"))
    ensures lookup.NoDocument? ==> r == Err(HttpError(404, "Store not found"))
    ensures lookup.Found? ==> r.Ok? && Some(r.value) == SerializeStore(Some(lookup.doc))
  {
    match LoadStore(lookup)
    case Err(e) => Err(e)
    case Ok(doc) => Ok(SerializeStore(Some(doc)).value)
  }

  // ---------------------------------------------------------------------
  // update_store_model_position

  /** A model position; floats are stood for by reals and only copied. */
  datatype Position = Position(x: real, y: real, z: real)

  /** `position.model_dump()`: a dict with exactly the keys x, y and z, so
      never the falsy empty dict, from which the position reads back. */
  function PositionValue(p: Position): (v: Value)
    ensures v.Object? && v.fields.Keys == {"x", "y", "z"} && Truthy(v)
    ensures v.fields["x"].Float? && v.fields["y"].Float? && v.fields["z"].Float?
    ensures Position(v.fields["x"].r, v.fields["y"].r, v.fields["z"].r) == p
  {
    var fields := map["x" := Float(p.x), "y" := Float(p.y), "z" := Float(p.z)];
    assert "x" in fields;
    Object(fields)
  }

  /** `store.get("models", [])` as the loop will iterate it, or None when the
      iteration itself raises.  A non-empty str or dict would be iterated as
      strings, on which `model["id"]` raises too; an empty one is an empty
      loop. */
  function ModelsOf(doc: Document): (r: Option<seq<Value>>)
    ensures "models" !in doc ==> r == Some([])
    ensures "models" in doc && doc["models"].List? ==> r == Some(doc["models"].items)
    ensures r.None? <==> && "models" in doc && !doc["models"].List?
                         && doc["models"] != Str("") && doc["models"] != Object(map[])
    ensures r.Some? && "models" in doc && !doc["models"].List? ==> r == Some([])
  {
    match if "models" in doc then doc["models"] else List([])
    case List(items) => Some(items)
    case Str(s) => if s == "" then Some([]) else None
    case Object(fields) => if fields == map[] then Some([]) else None
    case Null => None
    case Bool(_) => None
    case Int(_) => None
    case Float(_) => None
    case ObjectId(_) => None
  }

  /** `model["id"]` does not raise. */
  predicate HasId(model: Value) {
    model.Object? && "id" in model.fields
  }

  predicate IsModel(model: Value, modelId: string) {
    HasId(model) && model.fields["id"] == Str(modelId)
  }

  /** How the scan for `modelId` ends: at the first match, off the end, or
      at a model whose `model["id"]` raises. */
  datatype Scan = At(index: nat) | NotFound | NoId(index: nat)

  /** The scan from position `i`: it stops at the first model that matches
      (or raises) and never looks past it. */
  function FindModel(models: seq<Value>, modelId: string, i: nat): (r: Scan)
    requires i <= |models|
    ensures r.At? ==> i <= r.index < |models| && IsModel(models[r.index], modelId)
    ensures r.NoId? ==> i <= r.index < |models| && !HasId(models[r.index])
    ensures r.At? || r.NoId? ==>
              forall j :: i <= j < r.index ==> HasId(models[j]) && !IsModel(models[j], modelId)
    ensures r.NotFound? <==> forall j :: i <= j < |models| ==> HasId(models[j]) && !IsModel(models[j], modelId)
    decreases |models| - i
  {
    if i == |models| then NotFound
    else if !HasId(models[i]) then NoId(i)
    else if models[i].fields["id"] == Str(modelId) then At(i)
    else FindModel(models, modelId, i + 1)
  }

  /** `model["position"] = position` on a model dict. */
  function WithPosition(model: Value, position: Value): (r: Value)
    requires model.Object?
    ensures r.Object? && r.fields.Keys == model.fields.Keys + {"position"}
    ensures r.fields["position"] == position
    ensures forall k :: k in model.fields && k != "position" ==> r.fields[k] == model.fields[k]
  {
    Object(model.fields["position" := position])
  }

  /** The loop of update_store_model_position: overwrite the position of the
      first model whose id is `modelId`, in place, and stop there. */
  method SetModelPosition(models: array<Value>, modelId: string, position: Value) returns (r: Scan)
    modifies models
    ensures r == FindModel(old(models[..]), modelId, 0)
    ensures r.At? ==> models[..] == old(models[..])[r.index := WithPosition(old(models[r.index]), position)]
    ensures !r.At? ==> models[..] == old(models[..])
  {
    var modelFound := false;
    r := NotFound;
    var i := 0;
    while i < models.Length
      invariant 0 <= i <= models.Length
      invariant models[..] == old(models[..])
      invariant FindModel(models[..], modelId, 0) == FindModel(models[..], modelId, i)
    {
      var model := models[i];
      if !HasId(model) {
        // `model["id"]` raises
        return NoId(i);
      }
      if model.fields["id"] == Str(modelId) {
        models[i] := WithPosition(model, position);
        modelFound := true;
        r := At(i);
        break;
      }
      i := i + 1;
    }
    if !modelFound {
      r := NotFound;
    }
  }

  /** The models list after the update: only the first match moves. */
  function Repositioned(models: seq<Value>, modelId: string, position: Value): (r: seq<Value>)
    ensures |r| == |models|
    ensures forall j :: 0 <= j < |r| ==> HasId(r[j]) == HasId(models[j]) && IsModel(r[j], modelId) == IsModel(models[j], modelId)
  {
    match FindModel(models, modelId, 0)
    case At(i) => models[i := WithPosition(models[i], position)]
    case NotFound => models
    case NoId(_) => models
  }

  /** Only the first model with the id changes, and in it only its position;
      the length, the order and every other model stay as they were. */
  lemma RepositionedChangesOnlyFirstMatch(models: seq<Value>, modelId: string, position: Value)
    ensures var r := Repositioned(models, modelId, position);
      && |r| == |models|
      && (forall j :: 0 <= j < |models| && !(FindModel(models, modelId, 0) == At(j)) ==> r[j] == models[j])
      && (FindModel(models, modelId, 0).At? ==>
            var i := FindModel(models, modelId, 0).index;
            && (forall j :: 0 <= j < i ==> !IsModel(models[j], modelId))
            && r[i].fields["position"] == position
            && r[i].fields["id"] == Str(modelId)
            && forall k :: k in models[i].fields && k != "position" ==> r[i].fields[k] == models[i].fields[k])
  {
  }

  /** The scan depends only on which models have an id and which match. */
  lemma {:induction false} FindModelSameIds(a: seq<Value>, b: seq<Value>, modelId: string, i: nat)
    requires |a| == |b| && i <= |a|
    requires forall j :: 0 <= j < |a| ==> HasId(a[j]) == HasId(b[j]) && IsModel(a[j], modelId) == IsModel(b[j], modelId)
    ensures FindModel(a, modelId, i) == FindModel(b, modelId, i)
    decreases |a| - i
  {
    if i < |a| && HasId(a[i]) && !IsModel(a[i], modelId) {
      FindModelSameIds(a, b, modelId, i + 1);
    }
  }

  /** Sending the same position twice changes nothing the second time. */
  lemma RepositionedIdempotent(models: seq<Value>, modelId: string, position: Value)
    ensures Repositioned(Repositioned(models, modelId, position), modelId, position)
         == Repositioned(models, modelId, position)
  {
    var once := Repositioned(models, modelId, position);
    FindModelSameIds(once, models, modelId, 0);
    match FindModel(models, modelId, 0)
    case At(i) =>
      assert once[i].fields["position" := position] == once[i].fields;
    case NotFound =>
    case NoId(_) =>
  }

  /** update_store_model_position, with the re-read after the write returning
      what was written. */
  method UpdateStoreModelPosition(lookup: Lookup, modelId: string, position: Position, now: Value)
    returns (r: Result<Document>)
    requires lookup.Found? ==> Stored(lookup.doc)
    ensures lookup.InvalidId? ==> r == Err(HttpError(400, "Invalid store ID format"))
    ensures lookup.NoDocument? ==> r == Err(HttpError(404, "Store not found"))
    ensures lookup.Found? && ModelsOf(lookup.doc).None? ==> r == Err(InternalError)
    ensures lookup.Found? && ModelsOf(lookup.doc).Some? ==>
              var models := ModelsOf(lookup.doc).value;
              match FindModel(models, modelId, 0)
              case NotFound => r == Err(HttpError(404, "Model not found in store"))
              case NoId(_) => r == Err(InternalError)
              case At(_) =>
                var written := lookup.doc["models" := List(Repositioned(models, modelId, PositionValue(position)))]
                                         ["updatedAt" := now];
                Stored(written) && r == Ok(SerializeStore(Some(written)).value)
  {
    var loaded := LoadStore(lookup);
    if loaded.Err? {
      return Err(loaded.error);
    }
    var store := loaded.value;
    var listed := ModelsOf(store);
    if listed.None? {
      return Err(InternalError);
    }
    var models := new Value[|listed.value|](i requires 0 <= i < |listed.value| => listed.value[i]);
    assert models[..] == listed.value;
    var scan := SetModelPosition(models, modelId, PositionValue(position));
    if scan.NoId? {
      return Err(InternalError);
    }
    if scan.NotFound? {
      return Err(HttpError(404, "Model not found in store"));
    }
    var written := store["models" := List(models[..])]["updatedAt" := now];
    r := Ok(SerializeStore(Some(written)).value);
  }

  // ---------------------------------------------------------------------
  // update_store

  /** The fields of a StoreUpdate body; `model_dump()` yields every one of
      them, None where the client sent nothing. */
  const StoreUpdateFields: set<string> := {"name", "imageUrl", "domain", "videoUrl", "clickableLink", "models"}

  /** `{k: v for k, v in update.items() if v is not None}` */
  function NonNoneFields(update: Document): (r: Document)
    ensures forall k :: k in r <==> k in update && update[k] != Null
    ensures forall k :: k in r ==> r[k] == update[k]
  {
    map k | k in update && update[k] != Null :: update[k]
  }

  /** The `$set` of update_store: the given fields plus `updatedAt`. */
  function UpdateDict(update: Document, now: Value): (r: Document)
    ensures "updatedAt" in r && r["updatedAt"] == now
    ensures forall k :: k in r && k != "updatedAt" ==> k in update && update[k] != Null && r[k] == update[k]
    ensures forall k :: k in update && update[k] != Null ==> k in r
  {
    NonNoneFields(update)["updatedAt" := now]
  }

  /** A `$set` write: the named fields are replaced or added, the rest kept. */
  function SetFields(doc: Document, fields: Document): (r: Document)
    ensures r.Keys == doc.Keys + fields.Keys
    ensures forall k :: k in fields ==> r[k] == fields[k]
    ensures forall k :: k in doc && k !in fields ==> r[k] == doc[k]
  {
    doc + fields
  }

  /** No StoreUpdate field is `_id` or `updatedAt`. */
  lemma UpdateFieldsAreContent()
    ensures "_id" !in StoreUpdateFields && "updatedAt" !in StoreUpdateFields
  {
    assert forall f :: f in StoreUpdateFields ==> |f| > 0 && f[0] != '_';
    assert forall f :: f in StoreUpdateFields ==> f != "updatedAt" by {
      assert "updatedAt"[0] == 'u' && "updatedAt"[1] == 'p';
      assert "imageUrl"[0] == 'i' && "videoUrl"[0] == 'v';
    }
  }

  /** The partial update replaces exactly the fields given a non-None value,
      stamps `updatedAt`, and leaves every field given as None (or not
      given) as it was stored. */
  lemma PartialUpdateEffect(doc: Document, update: Document, now: Value)
    requires update.Keys == StoreUpdateFields
    ensures var d := SetFields(doc, UpdateDict(update, now));
      && d.Keys == doc.Keys + NonNoneFields(update).Keys + {"updatedAt"}
      && d["updatedAt"] == now
      && (forall k :: k in update && update[k] != Null ==> d[k] == update[k])
      && (forall k :: k in doc && k != "updatedAt" && (k !in update || update[k] == Null) ==> d[k] == doc[k])
      && ("_id" in doc ==> d["_id"] == doc["_id"])
  {
    UpdateFieldsAreContent();
  }

  /** update_store, with the re-read after the write returning what was
      written. */
  function UpdateStore(lookup: Lookup, update: Document, now: Value): (r: Result<Document>)
    requires update.Keys == StoreUpdateFields
    requires lookup.Found? ==> Stored(lookup.doc)
    ensures r.Err? <==> !lookup.Found?
    ensures r.Err? ==> r == LoadStore(lookup)
    ensures r.Ok? ==> && r.value.Keys == lookup.doc.Keys + NonNoneFields(update).Keys + {"updatedAt"}
                      && r.value["_id"] == Str(PyStr(lookup.doc["_id"]))
                      && r.value["updatedAt"] == now
                      && (forall k :: k in update && update[k] != Null ==> r.value[k] == update[k])
                      && (forall k :: k in lookup.doc && k !in NonNoneFields(update) && k !in {"_id", "updatedAt"}
                             ==> r.value[k] == lookup.doc[k])
  {
    match LoadStore(lookup)
    case Err(e) => Err(e)
    case Ok(doc) =>
      PartialUpdateEffect(doc, update, now);
      var written := SetFields(doc, UpdateDict(update, now));
      Ok(SerializeStore(Some(written)).value)
  }
}
