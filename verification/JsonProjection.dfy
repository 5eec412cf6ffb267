/** Matching a stored plan payload against the current one: exact bytes, or for legacy payloads structural
    projection onto the stored shape. */
module JsonProjection {
  import opened Wrappers

  type Bytes = string

  /** A decoded JSON value; numbers, strings, booleans and null are scalars. */
  datatype Json = Scalar(text: string) | List(items: seq<Json>) | Object(fields: map<string, Json>)

  /** The current value cut down to the fields the stored one has. */
  function Project(current: Json, stored: Json): Option<Json>
    decreases stored
  {
    match stored
    case Object(fields) =>
      if current.Object? && forall k :: k in fields ==> k in current.fields && Project(current.fields[k], fields[k]).Some? then
        Some(Object(map k | k in fields :: Project(current.fields[k], fields[k]).value))
      else None
    case List(items) =>
      if current.List? && |current.items| == |items|
         && forall i :: 0 <= i < |items| ==> Project(current.items[i], items[i]).Some? then
        Some(List(seq(|items|, i requires 0 <= i < |items| => Project(current.items[i], items[i]).value)))
      else None
    case Scalar(_) => Some(current)
  }

  /** The stored value is all there in the current one: same scalars, arrays of equal length, and every stored
      field present with a value that embeds. */
  predicate Embeds(stored: Json, current: Json)
    decreases stored
  {
    match stored
    case Object(fields) =>
      current.Object? && forall k :: k in fields ==> k in current.fields && Embeds(fields[k], current.fields[k])
    case List(items) =>
      current.List? && |current.items| == |items| && forall i :: 0 <= i < |items| ==> Embeds(items[i], current.items[i])
    case Scalar(_) => current == stored
  }

  /** Projection gives back the stored value exactly when it embeds. */
  lemma {:induction false} ProjectsIffEmbeds(stored: Json, current: Json)
    ensures Project(current, stored) == Some(stored) <==> Embeds(stored, current)
    decreases stored
  {
    match stored
    case Object(fields) =>
      if current.Object? {
        forall k | k in fields && k in current.fields
          ensures Project(current.fields[k], fields[k]) == Some(fields[k]) <==> Embeds(fields[k], current.fields[k])
        {
          ProjectsIffEmbeds(fields[k], current.fields[k]);
        }
        if Project(current, stored).Some? {
          var projected := Project(current, stored).value.fields;
          assert projected.Keys == fields.Keys;
          assert forall k :: k in fields ==> Some(projected[k]) == Project(current.fields[k], fields[k]);
          assert Embeds(stored, current) ==> projected == fields;
        }
      }
    case List(items) =>
      if current.List? && |current.items| == |items| {
        forall i | 0 <= i < |items|
          ensures Project(current.items[i], items[i]) == Some(items[i]) <==> Embeds(items[i], current.items[i])
        {
          ProjectsIffEmbeds(items[i], current.items[i]);
        }
        if Project(current, stored).Some? {
          var projected := Project(current, stored).value.items;
          assert |projected| == |items|;
          assert forall i :: 0 <= i < |items| ==> Some(projected[i]) == Project(current.items[i], items[i]);
          assert Embeds(stored, current) ==> projected == items;
        }
      }
    case Scalar(_) =>
  }

  lemma {:induction false} EmbedsItself(v: Json)
    ensures Embeds(v, v)
    decreases v
  {
    match v
    case Object(fields) =>
      forall k | k in fields ensures Embeds(fields[k], fields[k]) { EmbedsItself(fields[k]); }
    case List(items) =>
      forall i | 0 <= i < |items| ensures Embeds(items[i], items[i]) { EmbedsItself(items[i]); }
    case Scalar(_) =>
  }

  lemma {:induction false} EmbedsThrough(a: Json, b: Json, c: Json)
    requires Embeds(a, b) && Embeds(b, c)
    ensures Embeds(a, c)
    decreases a
  {
    match a
    case Object(fields) =>
      forall k | k in fields ensures Embeds(fields[k], c.fields[k]) { EmbedsThrough(fields[k], b.fields[k], c.fields[k]); }
    case List(items) =>
      forall i | 0 <= i < |items| ensures Embeds(items[i], c.items[i]) { EmbedsThrough(items[i], b.items[i], c.items[i]); }
    case Scalar(_) =>
  }

  /** Two values that embed in each other are equal, so embedding is a partial order. */
  lemma {:induction false} EmbedsBothWays(a: Json, b: Json)
    requires Embeds(a, b) && Embeds(b, a)
    ensures a == b
    decreases a
  {
    match a
    case Object(fields) =>
      forall k | k in fields ensures k in b.fields && fields[k] == b.fields[k] { EmbedsBothWays(fields[k], b.fields[k]); }
      assert fields == b.fields;
    case List(items) =>
      forall i | 0 <= i < |items| ensures items[i] == b.items[i] { EmbedsBothWays(items[i], b.items[i]); }
      assert items == b.items;
    case Scalar(_) =>
  }

  /** A field the value did not have. */
  lemma AddedFieldEmbeds(fields: map<string, Json>, k: string, v: Json)
    requires k !in fields
    ensures Embeds(Object(fields), Object(fields[k := v]))
  {
    forall j | j in fields ensures Embeds(fields[j], fields[j]) { EmbedsItself(fields[j]); }
  }

  /** The value with one field set in the object at the end of a path of names, where there is one. */
  function PutAt(v: Json, path: seq<string>, k: string, child: Json): Json {
    if !v.Object? then v
    else if path == [] then Object(v.fields[k := child])
    else if path[0] in v.fields then Object(v.fields[path[0] := PutAt(v.fields[path[0]], path[1..], k, child)])
    else v
  }

  /** What stands at the end of a path of names. */
  function ReadAt(v: Json, path: seq<string>): Option<Json> {
    if path == [] then Some(v)
    else if v.Object? && path[0] in v.fields then ReadAt(v.fields[path[0]], path[1..])
    else None
  }

  /** Where the path ends in an object, that object has the field set, and its others as before. */
  lemma {:induction false} PutAtReads(v: Json, path: seq<string>, k: string, child: Json)
    requires ReadAt(v, path).Some? && ReadAt(v, path).value.Object?
    ensures ReadAt(PutAt(v, path, k, child), path) == Some(Object(ReadAt(v, path).value.fields[k := child]))
    decreases |path|
  {
    if path != [] { PutAtReads(v.fields[path[0]], path[1..], k, child); }
  }

  predicate MissingAt(v: Json, path: seq<string>, k: string) {
    if !v.Object? then true
    else if path == [] then k !in v.fields
    else path[0] in v.fields ==> MissingAt(v.fields[path[0]], path[1..], k)
  }

  /** Adding a new field, at any depth of nested objects, never invalidates a stored payload. */
  lemma {:induction false} AddingNeverInvalidates(stored: Json, current: Json, path: seq<string>, k: string, child: Json)
    requires Embeds(stored, current) && MissingAt(current, path, k)
    ensures Embeds(stored, PutAt(current, path, k, child))
    ensures ReadAt(current, path).Some? && ReadAt(current, path).value.Object? ==>
              ReadAt(PutAt(current, path, k, child), path) == Some(Object(ReadAt(current, path).value.fields[k := child]))
  {
    if ReadAt(current, path).Some? && ReadAt(current, path).value.Object? { PutAtReads(current, path, k, child); }
    AddedAtEmbeds(current, path, k, child);
    EmbedsThrough(stored, current, PutAt(current, path, k, child));
  }

  lemma {:induction false} AddedAtEmbeds(v: Json, path: seq<string>, k: string, child: Json)
    requires MissingAt(v, path, k)
    ensures Embeds(v, PutAt(v, path, k, child))
    decreases |path|
  {
    EmbedsItself(v);
    if v.Object? {
      if path == [] {
        AddedFieldEmbeds(v.fields, k, child);
      } else if path[0] in v.fields {
        AddedAtEmbeds(v.fields[path[0]], path[1..], k, child);
        forall j | j in v.fields ensures Embeds(v.fields[j], v.fields[j]) { EmbedsItself(v.fields[j]); }
      }
    }
  }

  /** Whether a plan's stored payload still describes it. `currentPayload` is its canonical form now, if it
      has one, and `decode` reads a payload as an object. A legacy payload is one that carries a status. */
  method CanonicalStateValid(stored: Bytes, checksumMatches: bool, currentPayload: Result<Bytes>,
                             decode: Bytes -> Option<map<string, Json>>) returns (r: Result<bool>)
    ensures !checksumMatches || decode(stored).None? ==> r == Ok(false)
    ensures checksumMatches && decode(stored).Some? ==>
              var fields := decode(stored).value;
              if currentPayload.Err? then r.Err?
              else if "status" !in fields then r == Ok(stored == currentPayload.value)
              else if decode(currentPayload.value).None? then r.Err?
              else r == Ok(Embeds(Object(fields - {"status"}), Object(decode(currentPayload.value).value)))
  {
    var decoded := decode(stored);
    if !checksumMatches || decoded.None? {
      return Ok(false);
    }
    var fields := decoded.value;
    var legacy := "status" in fields;
    fields := fields - {"status"};
    if currentPayload.Err? {
      return Err(currentPayload.message);
    }
    if !legacy {
      return Ok(stored == currentPayload.value);
    }
    var current := decode(currentPayload.value);
    if current.None? {
      return Err("could not decode current deployment plan");
    }
    var projected := Project(Object(current.value), Object(fields));
    ProjectsIffEmbeds(Object(fields), Object(current.value));
    return Ok(projected == Some(Object(fields)));
  }
}
