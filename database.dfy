/** The request shaping of `database.go`: request paths, the `Destination`
    header value, the `_bulk_docs` body built by `Update` and its wrappers,
    the bulk-delete shaper that validates and tags every document before
    anything is sent, the feed-style checks and query strings of the two
    `_changes` calls, and the revision guard of `DelAttachment`. */
module Database {

  import opened Wrappers
  import opened Http
  import Text
  import Query

  /** A handle on one database of the server. The connection and the
      authenticator it carries are the transport's business. */
  datatype Database = Database(name: string)

  const Continuous := "continuous"

  // ---------------------------------------------------------------------
  // Paths

  /** `"/" + s` for every segment, in order. */
  function Joined(segments: seq<string>): string
  {
    if segments == [] then "" else Joined(segments[..|segments| - 1]) + "/" + segments[|segments| - 1]
  }

  /** What `queryURL` returns: the joined segments with every trailing `/` cut. */
  function JoinedPath(segments: seq<string>): string
  {
    Text.TrimRight(Joined(segments), '/')
  }

  /** `queryURL(path...)`. */
  method QueryURL(segments: seq<string>) returns (url: string)
    ensures url == JoinedPath(segments)
    ensures url <= Joined(segments) && (url == [] || url[|url| - 1] != '/')
    ensures segments == [] ==> url == ""
  {
    var acc := "";
    var i := 0;
    while i < |segments|
      invariant 0 <= i <= |segments|
      invariant acc == Joined(segments[..i])
    {
      assert segments[..i + 1][..i] == segments[..i];
      acc := acc + "/" + segments[i];
      i := i + 1;
    }
    assert segments[..i] == segments;
    url := Text.TrimRight(acc, '/');
  }

  /** Joining one more segment appends `/` and the segment. */
  lemma JoinedSnoc(segments: seq<string>, last: string)
    ensures Joined(segments + [last]) == Joined(segments) + "/" + last
  {
    assert (segments + [last])[..|segments|] == segments;
  }

  /** A joined path that does not end in `/` is not cut. */
  lemma TrimNothing(j: string)
    requires j != [] && j[|j| - 1] != '/'
    ensures Text.TrimRight(j, '/') == j
  {
  }

  /** Two segments, the last neither empty nor ending in `/`, give
      `/first/second` with nothing cut. */
  lemma TwoSegments(first: string, second: string)
    requires second != [] && second[|second| - 1] != '/'
    ensures JoinedPath([first, second]) == "/" + first + "/" + second
  {
    JoinedSnoc([], first);
    JoinedSnoc([first], second);
    assert [] + [first] == [first];
    assert [first] + [second] == [first, second];
    var j := "/" + first + "/" + second;
    assert j[|j| - 1] == second[|second| - 1];
    TrimNothing(j);
  }

  /** An empty last segment adds only a `/`, which is cut again: the path
      is that of the segments before it. */
  lemma EmptyLastSegment(first: string, second: string)
    ensures second != [] && second[|second| - 1] != '/' ==>
      JoinedPath([first, second, ""]) == "/" + first + "/" + second
  {
    if second != [] && second[|second| - 1] != '/' {
      JoinedSnoc([], first);
      JoinedSnoc([first], second);
      JoinedSnoc([first, second], "");
      assert [] + [first] == [first];
      assert [first] + [second] == [first, second];
      assert [first, second] + [""] == [first, second, ""];
      var j := "/" + first + "/" + second;
      assert j[|j| - 1] == second[|second| - 1];
      assert Joined([first, second, ""]) == j + ['/'];
      assert (j + ['/'])[..|j|] == j;
    }
  }

  /** Three segments, the last neither empty nor ending in `/`. */
  lemma ThreeSegments(first: string, second: string, third: string)
    requires third != [] && third[|third| - 1] != '/'
    ensures JoinedPath([first, second, third]) == "/" + first + "/" + second + "/" + third
  {
    JoinedSnoc([], first);
    JoinedSnoc([first], second);
    JoinedSnoc([first, second], third);
    assert [] + [first] == [first];
    assert [first] + [second] == [first, second];
    assert [first, second] + [third] == [first, second, third];
    var j := "/" + first + "/" + second + "/" + third;
    assert j[|j| - 1] == third[|third| - 1];
    TrimNothing(j);
  }

  // ---------------------------------------------------------------------
  // Destination

  /** A document id with options, as the `Destination` header of `COPY`
      carries it. */
  datatype Destination = Destination(id: string, options: Options) {

    /** `Destination.String`: the id alone when there are no options,
        otherwise the id, `?`, and the pairs joined by `&`. */
    method String() returns (url: string)
      ensures options == [] ==> url == id
      ensures options != [] ==> url == id + "?" + Text.Trim(Query.AmpAfter(options), '&')
      ensures Query.Tidy(options) ==> url == id + "?" + Query.JoinAmp(options)
    {
      var acc := "";
      var i := 0;
      while i < |options|
        invariant 0 <= i <= |options|
        invariant acc == Query.AmpAfter(options[..i])
      {
        assert options[..i + 1][..i] == options[..i];
        acc := acc + Query.PairText(options[i]) + "&";
        i := i + 1;
      }
      assert options[..i] == options;
      if |options| > 0 {
        url := id + "?" + Text.Trim(acc, '&');
        if Query.Tidy(options) {
          Query.TrimAmpAfter(options);
        }
      } else {
        url := id;
      }
    }
  }

  // ---------------------------------------------------------------------
  // Bulk update

  /** The request `Update` posts to `_bulk_docs`. */
  function BulkRequest(db: Database, docs: Value, atomic: bool, updateRev: bool, fullCommit: bool): Request
  {
    var plain := map["docs" := docs];
    var revs := if updateRev then plain else plain["new_edits" := Bool(false)];
    var body := if atomic then revs["all_or_nothing" := Bool(true)] else revs;
    var json := map["Content-Type" := ApplicationJson];
    var headers := if fullCommit then json["X-Couch-Full-Commit" := "true"] else json;
    Request("POST", JoinedPath([db.name, "_bulk_docs"]), headers, Some(Obj(body)))
  }

  /** `Update`: the body always holds the documents; it holds
      `new_edits = false` exactly when revisions are not to be updated and
      `all_or_nothing = true` exactly when the batch is atomic; the
      full-commit header is set exactly when asked for. */
  method Update(db: Database, docs: Value, atomic: bool, updateRev: bool, fullCommit: bool) returns (req: Request)
    ensures req == BulkRequest(db, docs, atomic, updateRev, fullCommit)
    ensures req.verb == "POST" && req.path == "/" + db.name + "/_bulk_docs"
    ensures req.body.Some? && req.body.value.Obj?
    ensures var body := req.body.value.fields;
      && "docs" in body && body["docs"] == docs
      && ("new_edits" in body <==> !updateRev)
      && ("all_or_nothing" in body <==> atomic)
      && (forall k :: k in body ==> k in {"docs", "new_edits", "all_or_nothing"})
      && (!updateRev ==> body["new_edits"] == Bool(false))
      && (atomic ==> body["all_or_nothing"] == Bool(true))
    ensures req.headers["Content-Type"] == ApplicationJson
    ensures "X-Couch-Full-Commit" in req.headers <==> fullCommit
    ensures fullCommit ==> req.headers["X-Couch-Full-Commit"] == "true"
  {
    var headers := map["Content-Type" := ApplicationJson];
    if fullCommit {
      headers := headers["X-Couch-Full-Commit" := "true"];
    }
    var request := map["docs" := docs];
    if !updateRev {
      request := request["new_edits" := Bool(false)];
    }
    if atomic {
      request := request["all_or_nothing" := Bool(true)];
    }
    TwoSegments(db.name, "_bulk_docs");
    var path := QueryURL([db.name, "_bulk_docs"]);
    req := Request("POST", path, headers, Some(Obj(request)));
  }

  /** `InsertMany`: not atomic, revisions updated, full commit. The body
      carries neither `new_edits` nor `all_or_nothing`. */
  method InsertMany(db: Database, docs: Value) returns (req: Request)
    ensures req == BulkRequest(db, docs, false, true, true)
    ensures req.body.Some? && req.body.value.Obj?
    ensures req.body.value.fields.Keys == {"docs"} && req.body.value.fields["docs"] == docs
    ensures req.headers == map["Content-Type" := ApplicationJson, "X-Couch-Full-Commit" := "true"]
  {
    req := Update(db, docs, false, true, true);
  }

  /** `MustInsertMany`: as `InsertMany`, but atomic. */
  method MustInsertMany(db: Database, docs: Value) returns (req: Request)
    ensures req == BulkRequest(db, docs, true, true, true)
    ensures req.body.Some? && req.body.value.Obj?
    ensures req.body.value.fields == map["docs" := docs, "all_or_nothing" := Bool(true)]
    ensures req.headers == map["Content-Type" := ApplicationJson, "X-Couch-Full-Commit" := "true"]
  {
    req := Update(db, docs, true, true, true);
  }

  // ---------------------------------------------------------------------
  // Bulk delete: the inputs

  /** A caller's `map[string]interface{}`. Go maps are references, so the
      shaper's writes are seen by the caller. */
  class DocMap {
    var entries: map<string, Value>

    constructor (entries: map<string, Value>)
      ensures this.entries == entries
    {
      this.entries := entries;
    }
  }

  /** One field of a struct as reflection sees it: the value of its `json`
      tag, whether it is exported (reflection can only read exported
      fields), and its value. */
  datatype Field = Field(jsonTag: string, exported: bool, value: Value)

  /** An element of a `[]interface{}`: a struct, or anything else (a
      pointer, a map, nil), which has no fields to inspect. */
  datatype Element = Struct(fields: seq<Field>) | NonStruct

  /** The argument of `DeleteMany`, by the kind reflection reports. */
  datatype Docs =
      /** A nil interface: reflection reports no type, and asking it for
          its kind panics. */
    | Nil
    | NotSlice
      /** A slice of maps; `exact` when it is a `[]map[string]interface{}`. */
    | SliceOfMaps(exact: bool, maps: seq<DocMap>)
      /** A slice of an interface type; `exact` when it is a
          `[]interface{}`, and not, say, a `[]error`. */
    | SliceOfInterfaces(exact: bool, elements: seq<Element>)
      /** A slice of anything else (structs, strings, slices...). */
    | SliceOfOther

  /** The caller's maps the shaper may write to. */
  function Mutable(docs: Docs): set<object>
  {
    if docs.SliceOfMaps? && docs.exact then set m | m in docs.maps else {}
  }

  function Entries(maps: seq<DocMap>): (r: seq<map<string, Value>>)
    reads set m | m in maps
    ensures |r| == |maps|
    ensures forall i :: 0 <= i < |maps| ==> r[i] == maps[i].entries
  {
    if maps == [] then [] else [maps[0].entries] + Entries(maps[1..])
  }

  /** How the documents go into the body: Go marshals the payload slice,
      which stays nil, and so `null`, when no document was added. */
  function Payload(records: seq<map<string, Value>>): Value
  {
    if records == [] then Null else Arr(seq(|records|, i requires 0 <= i < |records| => Obj(records[i])))
  }

  // ---------------------------------------------------------------------
  // Bulk delete: maps

  /** The check made of each map: `_id` first, then `_rev`. */
  function MapCheck(m: map<string, Value>): (r: Option<Error>)
    ensures r.None? <==> "_id" in m && "_rev" in m
    ensures r == Some(MapMissingId) <==> "_id" !in m
    ensures r == Some(MapMissingRev) <==> "_id" in m && "_rev" !in m
  {
    if "_id" !in m then Some(MapMissingId)
    else if "_rev" !in m then Some(MapMissingRev)
    else None
  }

  /** A map with the deletion tag written into it. */
  function MarkDeleted(m: map<string, Value>): map<string, Value>
  {
    m["_deleted" := Bool(true)]
  }

  /** Tagging a map does not change how it checks, so a map that
      appears twice in the slice, or is deleted a second time, checks the
      same the second time. */
  lemma MarkKeepsCheck(m: map<string, Value>)
    ensures MapCheck(MarkDeleted(m)) == MapCheck(m)
  {
  }

  /** Tagging twice is tagging once, so a map that appears twice in the
      slice, or is deleted a second time, ends up tagged the same. */
  lemma MarkIdempotent(m: map<string, Value>)
    ensures MarkDeleted(MarkDeleted(m)) == MarkDeleted(m)
  {
    assert MarkDeleted(MarkDeleted(m)).Keys == MarkDeleted(m).Keys;
  }

  /** The number of maps, from the front, that pass the check. */
  function PassingPrefix(ms: seq<map<string, Value>>): (n: nat)
    ensures n <= |ms|
    ensures forall i :: 0 <= i < n ==> MapCheck(ms[i]).None?
    ensures n < |ms| ==> MapCheck(ms[n]).Some?
  {
    if ms == [] || MapCheck(ms[0]).Some? then 0 else 1 + PassingPrefix(ms[1..])
  }

  /** One turn of the map loop: a map missing `_id` or `_rev` is left
      as it is and its error returned; a map with both is tagged. */
  method CheckAndMark(m: DocMap) returns (err: Option<Error>)
    modifies m
    ensures err == MapCheck(old(m.entries))
    ensures m.entries == if err.None? then MarkDeleted(old(m.entries)) else old(m.entries)
  {
    if "_id" !in m.entries {
      return Some(MapMissingId);
    }
    if "_rev" !in m.entries {
      return Some(MapMissingRev);
    }
    m.entries := m.entries["_deleted" := Bool(true)];
    return None;
  }

  /** The map loop of `bulkDelete`: checks each map in turn and tags it
      for deletion in place, stopping at the first map without `_id` or
      `_rev` with that map's error. The maps before it keep their tag. */
  method MarkMaps(maps: seq<DocMap>) returns (err: Option<Error>)
    modifies set m | m in maps
    ensures err.None? <==> PassingPrefix(old(Entries(maps))) == |maps|
    ensures PassingPrefix(old(Entries(maps))) < |maps| ==>
      err == MapCheck(old(Entries(maps))[PassingPrefix(old(Entries(maps)))])
    ensures var n := PassingPrefix(old(Entries(maps)));
      forall m :: m in maps ==>
        m.entries == if m in maps[..n] then MarkDeleted(old(m.entries)) else old(m.entries)
  {
    ghost var before := Entries(maps);
    ghost var n := PassingPrefix(before);
    var i := 0;
    while i < |maps|
      invariant 0 <= i <= n
      invariant forall j :: 0 <= j < |maps| ==> before[j] == old(maps[j].entries)
      invariant forall m :: m in maps ==>
        m.entries == if m in maps[..i] then MarkDeleted(old(m.entries)) else old(m.entries)
    {
      var m := maps[i];
      MarkKeepsCheck(before[i]);
      var e := CheckAndMark(m);
      if e.Some? {
        assert i == n;
        return e;
      }
      assert maps[..i + 1] == maps[..i] + [m];
      forall o | o in maps
        ensures o.entries == if o in maps[..i + 1] then MarkDeleted(old(o.entries)) else old(o.entries)
      {
        if o == m {
          MarkIdempotent(old(o.entries));
        }
      }
      i := i + 1;
    }
    assert i == |maps| == n;
    return None;
  }

  // ---------------------------------------------------------------------
  // Bulk delete: structs

  /** What reflection has found so far in one struct. */
  datatype Found = Found(id: Option<Value>, rev: Option<Value>)

  predicate IsIdTag(tag: string)
  {
    tag == "_id"
  }

  /** A tag that contains `_rev`, such as `_rev,omitempty`. */
  predicate IsRevTag(tag: string)
  {
    Text.Contains(tag, "_rev")
  }

  /** `dv.Field(k).Interface().(string)` succeeds: the field is exported and
      holds a string. Otherwise it panics. */
  predicate Readable(f: Field)
  {
    f.exported && f.value.Str?
  }

  /** One turn of the field loop: an `_id` tag supplies `_id`, a tag
      containing `_rev` supplies `_rev`; reading either from a field that
      is not a readable string panics, which `bulkDelete` recovers as
      `InvalidArgumentType`. */
  function Visit(acc: Found, f: Field): Result<Found, Error>
  {
    if IsIdTag(f.jsonTag) && !Readable(f) then Err(InvalidArgumentType)
    else
      var acc' := if IsIdTag(f.jsonTag) then acc.(id := Some(f.value)) else acc;
      if IsRevTag(f.jsonTag) && !Readable(f) then Err(InvalidArgumentType)
      else if IsRevTag(f.jsonTag) then Ok(acc'.(rev := Some(f.value)))
      else Ok(acc')
  }

  /** The field loop over a struct, first field first. */
  function Scan(fields: seq<Field>): Result<Found, Error>
  {
    if fields == [] then Ok(Found(None, None))
    else
      match Scan(fields[..|fields| - 1])
      case Err(e) => Err(e)
      case Ok(acc) => Visit(acc, fields[|fields| - 1])
  }

  /** A field whose value the field loop reads. */
  predicate Relevant(f: Field)
  {
    IsIdTag(f.jsonTag) || IsRevTag(f.jsonTag)
  }

  /** `k` is the last field whose tag `p` accepts. */
  predicate LastWith(fields: seq<Field>, k: int, p: string -> bool)
  {
    0 <= k < |fields| && p(fields[k].jsonTag) && forall j :: k < j < |fields| ==> !p(fields[j].jsonTag)
  }

  /** One turn of the field loop sets `_id` exactly at an `_id` tag. */
  lemma VisitId(acc: Found, f: Field)
    requires Visit(acc, f).Ok?
    ensures Visit(acc, f).value.id == if IsIdTag(f.jsonTag) then Some(f.value) else acc.id
  {
  }

  /** One turn of the field loop sets `_rev` exactly at a `_rev` tag. */
  lemma VisitRev(acc: Found, f: Field)
    requires Visit(acc, f).Ok?
    ensures Visit(acc, f).value.rev == if IsRevTag(f.jsonTag) then Some(f.value) else acc.rev
  {
  }

  /** The field loop fails exactly when some field it reads is not a
      readable string, and then with `InvalidArgumentType`. */
  lemma {:induction false} ScanFails(fields: seq<Field>)
    ensures Scan(fields).Err? <==> exists k :: 0 <= k < |fields| && Relevant(fields[k]) && !Readable(fields[k])
    ensures Scan(fields).Err? ==> Scan(fields).error == InvalidArgumentType
  {
    if fields != [] {
      var init := fields[..|fields| - 1];
      ScanFails(init);
      assert forall k :: 0 <= k < |init| ==> init[k] == fields[k];
      if Scan(init).Err? {
        var k :| 0 <= k < |init| && Relevant(init[k]) && !Readable(init[k]);
        assert Relevant(fields[k]) && !Readable(fields[k]);
      }
    }
  }

  /** The value of the last field whose tag `p` accepts. */
  function LastValue(fields: seq<Field>, p: string -> bool): Option<Value>
  {
    if fields == [] then None
    else if p(fields[|fields| - 1].jsonTag) then Some(fields[|fields| - 1].value)
    else LastValue(fields[..|fields| - 1], p)
  }

  /** `LastValue` is absent exactly when no tag is accepted. */
  lemma {:induction false} LastValueAbsent(fields: seq<Field>, p: string -> bool)
    ensures LastValue(fields, p).None? <==> forall k :: 0 <= k < |fields| ==> !p(fields[k].jsonTag)
  {
    if fields != [] {
      var init := fields[..|fields| - 1];
      LastValueAbsent(init, p);
      if !p(fields[|fields| - 1].jsonTag) && LastValue(init, p).None? {
        forall k | 0 <= k < |fields|
          ensures !p(fields[k].jsonTag)
        {
          if k < |init| {
            assert init[k] == fields[k];
          }
        }
      }
    }
  }

  /** A `LastValue` found is the value of the last accepted field. */
  lemma {:induction false} LastValueFound(fields: seq<Field>, p: string -> bool)
    ensures LastValue(fields, p).Some? ==>
      exists k :: LastWith(fields, k, p) && fields[k].value == LastValue(fields, p).value
  {
    if fields != [] {
      var init := fields[..|fields| - 1];
      if p(fields[|fields| - 1].jsonTag) {
        assert LastWith(fields, |fields| - 1, p);
      } else if LastValue(init, p).Some? {
        LastValueFound(init, p);
        var k :| LastWith(init, k, p) && init[k].value == LastValue(init, p).value;
        forall j | k < j < |fields|
          ensures !p(fields[j].jsonTag)
        {
          if j < |init| {
            assert !p(init[j].jsonTag);
          }
        }
        assert fields[k] == init[k];
        assert LastWith(fields, k, p);
      }
    }
  }

  /** The field loop keeps in `_id` the last `_id`-tagged value. */
  lemma {:induction false} ScanTracksId(fields: seq<Field>)
    requires Scan(fields).Ok?
    ensures Scan(fields).value.id == LastValue(fields, IsIdTag)
  {
    if fields != [] {
      var init := fields[..|fields| - 1];
      var f := fields[|fields| - 1];
      assert Scan(init).Ok?;
      ScanTracksId(init);
      assert Scan(fields) == Visit(Scan(init).value, f);
      VisitId(Scan(init).value, f);
    }
  }

  /** The field loop keeps in `_rev` the last `_rev`-tagged value. */
  lemma {:induction false} ScanTracksRev(fields: seq<Field>)
    requires Scan(fields).Ok?
    ensures Scan(fields).value.rev == LastValue(fields, IsRevTag)
  {
    if fields != [] {
      var init := fields[..|fields| - 1];
      var f := fields[|fields| - 1];
      assert Scan(init).Ok?;
      ScanTracksRev(init);
      assert Scan(fields) == Visit(Scan(init).value, f);
      VisitRev(Scan(init).value, f);
    }
  }

  /** When the field loop succeeds, `_id` holds the value of the last
      field tagged `_id`, and is absent when no field carries that tag. */
  lemma ScanFindsId(fields: seq<Field>)
    requires Scan(fields).Ok?
    ensures Scan(fields).value.id.None? <==> forall k :: 0 <= k < |fields| ==> !IsIdTag(fields[k].jsonTag)
    ensures Scan(fields).value.id.Some? ==>
      exists k :: LastWith(fields, k, IsIdTag) && fields[k].value == Scan(fields).value.id.value
  {
    ScanTracksId(fields);
    LastValueAbsent(fields, IsIdTag);
    LastValueFound(fields, IsIdTag);
  }

  /** When the field loop succeeds, `_rev` holds the value of the last
      field whose tag contains `_rev`, and is absent when there is none. */
  lemma ScanFindsRev(fields: seq<Field>)
    requires Scan(fields).Ok?
    ensures Scan(fields).value.rev.None? <==> forall k :: 0 <= k < |fields| ==> !IsRevTag(fields[k].jsonTag)
    ensures Scan(fields).value.rev.Some? ==>
      exists k :: LastWith(fields, k, IsRevTag) && fields[k].value == Scan(fields).value.rev.value
  {
    ScanTracksRev(fields);
    LastValueAbsent(fields, IsRevTag);
    LastValueFound(fields, IsRevTag);
  }

  /** The record built for one element of a `[]interface{}`: exactly
      `_id`, `_rev` and `_deleted = true`, or the first error met. A
      non-struct element panics on `NumField`, recovered as
      `InvalidArgumentType`. */
  function ElementRecord(e: Element): Result<map<string, Value>, Error>
  {
    match e
    case NonStruct => Err(InvalidArgumentType)
    case Struct(fields) =>
      match Scan(fields)
      case Err(err) => Err(err)
      case Ok(found) =>
        if found.id.None? then Err(DocumentMissingId)
        else if found.rev.None? then Err(DocumentMissingRev)
        else Ok(map["_id" := found.id.value, "_rev" := found.rev.value, "_deleted" := Bool(true)])
  }

  /** The records for all elements, or the error of the first element
      that has none. */
  function ElementRecords(es: seq<Element>): Result<seq<map<string, Value>>, Error>
  {
    if es == [] then Ok([])
    else
      match ElementRecords(es[..|es| - 1])
      case Err(e) => Err(e)
      case Ok(rs) =>
        match ElementRecord(es[|es| - 1])
        case Err(e) => Err(e)
        case Ok(r) => Ok(rs + [r])
  }

  /** One record per element, in element order, when every element has
      one; otherwise the error is that of the first element without. */
  lemma {:induction false} ElementRecordsInOrder(es: seq<Element>)
    ensures ElementRecords(es).Ok? <==> forall i :: 0 <= i < |es| ==> ElementRecord(es[i]).Ok?
    ensures ElementRecords(es).Ok? ==>
      |ElementRecords(es).value| == |es|
      && forall i :: 0 <= i < |es| ==> ElementRecords(es).value[i] == ElementRecord(es[i]).value
    ensures ElementRecords(es).Err? ==>
      exists i :: 0 <= i < |es| && ElementRecord(es[i]) == Err(ElementRecords(es).error) &&
        forall j :: 0 <= j < i ==> ElementRecord(es[j]).Ok?
  {
    if es != [] {
      var init := es[..|es| - 1];
      ElementRecordsInOrder(init);
      assert forall i :: 0 <= i < |init| ==> init[i] == es[i];
      if ElementRecords(init).Err? {
        var i :| 0 <= i < |init| && ElementRecord(init[i]) == Err(ElementRecords(init).error)
          && forall j :: 0 <= j < i ==> ElementRecord(init[j]).Ok?;
        assert ElementRecord(es[i]) == Err(ElementRecords(es).error);
      }
    }
  }

  /** Whatever order the fields are declared in, one readable field tagged
      `_id` and one readable field whose tag contains `_rev` are found,
      and the record holds exactly their values and the deletion tag. */
  lemma StructFieldsLocated(fields: seq<Field>, i: nat, j: nat)
    requires i < |fields| && j < |fields|
    requires IsIdTag(fields[i].jsonTag) && Readable(fields[i])
    requires IsRevTag(fields[j].jsonTag) && Readable(fields[j])
    requires forall k :: 0 <= k < |fields| && k != i ==> !IsIdTag(fields[k].jsonTag)
    requires forall k :: 0 <= k < |fields| && k != j ==> !IsRevTag(fields[k].jsonTag)
    ensures ElementRecord(Struct(fields))
      == Ok(map["_id" := fields[i].value, "_rev" := fields[j].value, "_deleted" := Bool(true)])
  {
    ScanFails(fields);
    assert Scan(fields).Ok?;
    ScanFindsId(fields);
    ScanFindsRev(fields);
    var found := Scan(fields).value;
    assert found.id.Some?;
    assert found.rev.Some?;
  }

  /** The struct loop of `bulkDelete`: one record per element, built from
      the fields of each struct in turn, or the first error met. */
  method ShapeElements(es: seq<Element>) returns (r: Result<seq<map<string, Value>>, Error>)
    ensures r == ElementRecords(es)
    ensures r.Ok? ==> |r.value| == |es| && forall i :: 0 <= i < |es| ==>
      r.value[i].Keys == {"_id", "_rev", "_deleted"} && r.value[i]["_deleted"] == Bool(true)
  {
    var payload: seq<map<string, Value>> := [];
    var i := 0;
    while i < |es|
      invariant 0 <= i <= |es|
      invariant ElementRecords(es[..i]) == Ok(payload)
    {
      assert es[..i + 1][..i] == es[..i];
      var e := es[i];
      if e.NonStruct? {
        ElementsFailed(es, i + 1);
        return Err(InvalidArgumentType);
      }
      var scanned := ScanFields(e.fields);
      if scanned.Err? {
        ElementsFailed(es, i + 1);
        return Err(scanned.error);
      }
      var found := scanned.value;
      if found.id.None? {
        ElementsFailed(es, i + 1);
        return Err(DocumentMissingId);
      }
      if found.rev.None? {
        ElementsFailed(es, i + 1);
        return Err(DocumentMissingRev);
      }
      payload := payload + [map["_id" := found.id.value, "_rev" := found.rev.value, "_deleted" := Bool(true)]];
      i := i + 1;
    }
    assert es[..i] == es;
    ElementRecordsInOrder(es);
    return Ok(payload);
  }

  /** The field loop over one struct: reads `_id` and `_rev` from the
      tagged fields, the last one winning, and stops with the recovered
      panic at the first tagged field that is not a readable string. */
  method ScanFields(fields: seq<Field>) returns (r: Result<Found, Error>)
    ensures r == Scan(fields)
  {
    var found := Found(None, None);
    var k := 0;
    while k < |fields|
      invariant 0 <= k <= |fields|
      invariant Scan(fields[..k]) == Ok(found)
    {
      assert fields[..k + 1][..k] == fields[..k];
      var f := fields[k];
      if IsIdTag(f.jsonTag) {
        if !Readable(f) {
          ScanFailed(fields, k + 1);
          return Err(InvalidArgumentType);
        }
        found := found.(id := Some(f.value));
      }
      if Text.Contains(f.jsonTag, "_rev") {
        if !Readable(f) {
          ScanFailed(fields, k + 1);
          return Err(InvalidArgumentType);
        }
        found := found.(rev := Some(f.value));
      }
      k := k + 1;
    }
    assert fields[..k] == fields;
    return Ok(found);
  }

  /** Once the field loop has failed on a prefix, it fails on the whole
      struct with the same error. */
  lemma {:induction false} ScanFailed(fields: seq<Field>, k: nat)
    requires k <= |fields| && Scan(fields[..k]).Err?
    ensures Scan(fields) == Scan(fields[..k])
    decreases |fields| - k
  {
    if k < |fields| {
      assert fields[..k + 1][..k] == fields[..k];
      ScanFailed(fields, k + 1);
    } else {
      assert fields[..k] == fields;
    }
  }

  /** Once the element loop has failed on a prefix, it fails on all
      elements with the same error. */
  lemma {:induction false} ElementsFailed(es: seq<Element>, k: nat)
    requires k <= |es| && ElementRecords(es[..k]).Err?
    ensures ElementRecords(es) == ElementRecords(es[..k])
    decreases |es| - k
  {
    if k < |es| {
      assert es[..k + 1][..k] == es[..k];
      ElementsFailed(es, k + 1);
    } else {
      assert es[..k] == es;
    }
  }

  // ---------------------------------------------------------------------
  // Bulk delete

  /** `bulkDelete`: dispatches on the kind of `docs`, validates and tags
      every document, and only when all pass builds the `_bulk_docs`
      request; on any error nothing is sent. Maps are tagged in place, so
      after a failure the maps before the failing one keep their tag. */
  method BulkDelete(db: Database, docs: Docs, atomic: bool, updateRev: bool, fullCommit: bool) returns (call: Call)
    modifies Mutable(docs)
    ensures docs.Nil? ==> call == Reject(InvalidArgumentType)
    ensures docs.NotSlice? ==> call == Reject(NotASlice)
    ensures docs.SliceOfOther? ==> call == Reject(UnsupportedDocumentType)
    ensures docs.SliceOfMaps? && !docs.exact ==> call == Reject(InvalidArgumentType)
    ensures docs.SliceOfMaps? && docs.exact && PassingPrefix(old(Entries(docs.maps))) < |docs.maps| ==>
      call == Reject(MapCheck(old(Entries(docs.maps))[PassingPrefix(old(Entries(docs.maps)))]).value)
    ensures docs.SliceOfMaps? && docs.exact && PassingPrefix(old(Entries(docs.maps))) == |docs.maps| ==>
      call == Send(BulkRequest(db, Payload(Entries(docs.maps)), atomic, updateRev, fullCommit))
    ensures docs.SliceOfMaps? && docs.exact ==> var n := PassingPrefix(old(Entries(docs.maps)));
      forall m :: m in docs.maps ==>
        m.entries == if m in docs.maps[..n] then MarkDeleted(old(m.entries)) else old(m.entries)
    ensures docs.SliceOfInterfaces? && !docs.exact ==> call == Reject(InvalidArgumentType)
    ensures docs.SliceOfInterfaces? && docs.exact ==>
      match ElementRecords(docs.elements)
      case Err(e) => call == Reject(e)
      case Ok(records) => call == Send(BulkRequest(db, Payload(records), atomic, updateRev, fullCommit))
  {
    match docs
    case Nil =>
      return Reject(InvalidArgumentType);
    case NotSlice =>
      return Reject(NotASlice);
    case SliceOfOther =>
      return Reject(UnsupportedDocumentType);
    case SliceOfMaps(exact, maps) =>
      if !exact {
        return Reject(InvalidArgumentType);
      }
      var err := MarkMaps(maps);
      if err.Some? {
        return Reject(err.value);
      }
      assert maps[..|maps|] == maps;
      var req := Update(db, Payload(Entries(maps)), atomic, updateRev, fullCommit);
      return Send(req);
    case SliceOfInterfaces(exact, elements) =>
      if !exact {
        return Reject(InvalidArgumentType);
      }
      var records := ShapeElements(elements);
      if records.Err? {
        return Reject(records.error);
      }
      var req := Update(db, Payload(records.value), atomic, updateRev, fullCommit);
      return Send(req);
  }

  /** Maps that check the same, position by position, pass the same
      number from the front. */
  lemma {:induction false} SameChecksSamePrefix(a: seq<map<string, Value>>, b: seq<map<string, Value>>)
    requires |a| == |b|
    requires forall i :: 0 <= i < |a| ==> MapCheck(a[i]) == MapCheck(b[i])
    ensures PassingPrefix(a) == PassingPrefix(b)
  {
    if a != [] && MapCheck(a[0]).None? {
      SameChecksSamePrefix(a[1..], b[1..]);
    }
  }

  /** Deleting the same documents a second time, after the first call has
      tagged the maps, gives the same outcome: the same error, or the same
      request. */
  method BulkDeleteAgain(db: Database, docs: Docs, atomic: bool, updateRev: bool, fullCommit: bool)
    returns (first: Call, second: Call)
    modifies Mutable(docs)
    ensures second == first
  {
    if docs.SliceOfMaps? && docs.exact {
      first, second := BulkDeleteMapsAgain(db, docs, atomic, updateRev, fullCommit);
    } else {
      first := BulkDelete(db, docs, atomic, updateRev, fullCommit);
      second := BulkDelete(db, docs, atomic, updateRev, fullCommit);
    }
  }

  /** `BulkDeleteAgain` for a slice of maps: the first call tags the maps
      it passes without changing how they check, so the second stops at
      the same map, or tags them again to the same contents. */
  method BulkDeleteMapsAgain(db: Database, docs: Docs, atomic: bool, updateRev: bool, fullCommit: bool)
    returns (first: Call, second: Call)
    requires docs.SliceOfMaps? && docs.exact
    modifies Mutable(docs)
    ensures second == first
  {
    var maps := docs.maps;
    ghost var before := Entries(maps);
    ghost var n := PassingPrefix(before);
    first := BulkDelete(db, docs, atomic, updateRev, fullCommit);
    ghost var between := Entries(maps);
    forall i | 0 <= i < |maps|
      ensures MapCheck(between[i]) == MapCheck(before[i])
    {
      MarkKeepsCheck(before[i]);
    }
    SameChecksSamePrefix(between, before);
    second := BulkDelete(db, docs, atomic, updateRev, fullCommit);
    if n == |maps| {
      forall i | 0 <= i < |maps|
        ensures Entries(maps)[i] == between[i]
      {
        assert maps[i] in maps[..n];
        MarkIdempotent(before[i]);
      }
      assert Entries(maps) == between;
    }
  }

  /** `DeleteMany`: a bulk delete that is not atomic. Whatever it sends
      carries no `new_edits` and no `all_or_nothing`. */
  method DeleteMany(db: Database, docs: Docs) returns (call: Call)
    modifies Mutable(docs)
    ensures call.Send? ==>
      && call.request.body.Some? && call.request.body.value.Obj?
      && call.request.body.value.fields.Keys == {"docs"}
  {
    call := BulkDelete(db, docs, false, true, true);
  }

  /** `MustDeleteMany`: a bulk delete that is atomic. */
  method MustDeleteMany(db: Database, docs: Docs) returns (call: Call)
    modifies Mutable(docs)
    ensures call.Send? ==>
      && call.request.body.Some? && call.request.body.value.Obj?
      && call.request.body.value.fields.Keys == {"docs", "all_or_nothing"}
      && call.request.body.value.fields["all_or_nothing"] == Bool(true)
  {
    call := BulkDelete(db, docs, true, true, true);
  }

  // ---------------------------------------------------------------------
  // Changes feeds

  /** The feed check of `GetAllChanges`: a `feed` option that is not a
      string panics on `val.(string)`; `continuous` is refused. */
  function AllChangesFeedCheck(opts: Options): Option<Error>
  {
    match Lookup(opts, "feed")
    case None => None
    case Some(v) =>
      if !v.Text? then Some(Panic)
      else if v.s == Continuous then Some(ContinuousNotSupported)
      else None
  }

  /** The query segment of `GetAllChanges`. */
  function AllChangesQuery(opts: Options): string
  {
    if |opts| > 0 then "_changes?" + Text.Trim(Query.AmpBefore(opts), '&') else "_changes"
  }

  /** The path `GetAllChanges` asks for without options: `/<db>/_changes`. */
  lemma AllChangesPathEmpty(db: Database)
    ensures JoinedPath([db.name, AllChangesQuery([])]) == "/" + db.name + "/_changes"
  {
    TwoSegments(db.name, "_changes");
  }

  /** The path `GetAllChanges` asks for with tidy options: the pairs
      joined by `&` after `?`. */
  lemma AllChangesPathTidy(db: Database, opts: Options)
    requires Query.Tidy(opts)
    ensures JoinedPath([db.name, AllChangesQuery(opts)]) == "/" + db.name + "/_changes?" + Query.JoinAmp(opts)
  {
    var j := Query.JoinAmp(opts);
    Query.TrimAmpBefore(opts);
    Query.JoinAmpLast(opts);
    var q := "_changes?" + j;
    assert AllChangesQuery(opts) == q;
    assert q[|q| - 1] == j[|j| - 1];
    TwoSegments(db.name, q);
    ChangesRegroup(db.name, j);
  }

  lemma ChangesRegroup(name: string, j: string)
    ensures "/" + name + "/" + ("_changes?" + j) == "/" + name + "/_changes?" + j
  {
  }

  /** `GetAllChanges` up to the request: a continuous feed is refused
      before anything is sent; otherwise it asks for
      `/<db>/_changes?k1=v1&k2=v2`. */
  method GetAllChanges(db: Database, opts: Options) returns (call: Call)
    ensures Lookup(opts, "feed") == Some(OptionValue.Text(Continuous)) ==> call == Reject(ContinuousNotSupported)
    ensures AllChangesFeedCheck(opts).Some? ==> call == Reject(AllChangesFeedCheck(opts).value)
    ensures AllChangesFeedCheck(opts).None? ==>
      call == Send(Request("GET", JoinedPath([db.name, AllChangesQuery(opts)]), map[], None))
    ensures opts == [] ==> call == Send(Request("GET", "/" + db.name + "/_changes", map[], None))
    ensures AllChangesFeedCheck(opts).None? && Query.Tidy(opts) ==>
      call == Send(Request("GET", "/" + db.name + "/_changes?" + Query.JoinAmp(opts), map[], None))
  {
    var feed := Lookup(opts, "feed");
    if feed.Some? && !feed.value.Text? {
      return Reject(Panic);
    }
    if feed.Some? && feed.value.s == Continuous {
      return Reject(ContinuousNotSupported);
    }
    var acc := "";
    var i := 0;
    while i < |opts|
      invariant 0 <= i <= |opts|
      invariant acc == Query.AmpBefore(opts[..i])
    {
      assert opts[..i + 1][..i] == opts[..i];
      acc := acc + "&" + Query.PairText(opts[i]);
      i := i + 1;
    }
    assert opts[..i] == opts;
    var query := if |opts| > 0 then "_changes?" + Text.Trim(acc, '&') else "_changes";
    if opts == [] {
      AllChangesPathEmpty(db);
    }
    if Query.Tidy(opts) {
      AllChangesPathTidy(db, opts);
    }
    var path := QueryURL([db.name, query]);
    return Send(Request("GET", path, map[], None));
  }

  /** The caller's `Options` map, which `GetChangesChan` edits. */
  class OptionsMap {
    var pairs: Options

    constructor (pairs: Options)
      ensures this.pairs == pairs
    {
      this.pairs := pairs;
    }
  }

  /** The query segment of `GetChangesChan` as the source writes it: the
      remaining pairs follow `feed=continuous` and each other with no `&`
      between them. */
  function ChangesFeedQueryAsWritten(rest: Options): (query: string)
    ensures "_changes?feed=continuous" <= query
    ensures rest == [] ==> query == "_changes?feed=continuous"
    ensures Query.Tidy(rest) ==> query == "_changes?feed=continuous" + Query.NoSeparator(rest)
  {
    Query.TrimNoSeparator(rest);
    if |rest| > 0 then "_changes?feed=continuous" + Text.Trim(Query.NoSeparator(rest), '&')
    else "_changes?feed=continuous"
  }

  /** The source's segment for one tidy option runs the pair into the
      feed value, with no `&` between them. */
  lemma ChangesFeedRunsTogether(p: (string, OptionValue))
    requires Query.Tidy([p])
    ensures ChangesFeedQueryAsWritten([p]) == "_changes?feed=continuous" + Query.PairText(p)
  {
    SinglePairRunTogether(p);
    Query.JoinAmpEnds([p]);
    Text.TrimUntouched(Query.PairText(p), '&');
  }

  /** `{"since": "now"}` becomes `feed=continuoussince=now`. */
  lemma SinceNowRunsTogether()
    ensures ChangesFeedQueryAsWritten([("since", OptionValue.Text("now"))]) == "_changes?feed=continuoussince=now"
  {
    var p := ("since", OptionValue.Text("now"));
    SincePair();
    ChangesFeedRunsTogether(p);
    SinceRunsTogether();
  }

  lemma SincePair()
    ensures Query.Tidy([("since", OptionValue.Text("now"))])
    ensures Query.PairText(("since", OptionValue.Text("now"))) == "since=now"
  {
  }

  lemma SinceRunsTogether()
    ensures "_changes?feed=continuous" + "since=now" == "_changes?feed=continuoussince=now"
  {
  }

  lemma SinglePairRunTogether(p: (string, OptionValue))
    ensures Query.NoSeparator([p]) == Query.PairText(p)
  {
    assert [p][..0] == [];
  }

  /** The query segment of `GetChangesChan` with every pair introduced by
      `&`, as `GetAllChanges` writes them. */
  function ChangesFeedQuery(rest: Options): string
  {
    if |rest| > 0 then "_changes?feed=continuous&" + Text.Trim(Query.AmpBefore(rest), '&')
    else "_changes?feed=continuous"
  }

  /** With the separator in place, tidy options follow `feed=continuous`
      as `&k1=v1&k2=v2`. */
  lemma ChangesFeedSeparated(rest: Options)
    requires Query.Tidy(rest)
    ensures ChangesFeedQuery(rest) == "_changes?feed=continuous&" + Query.JoinAmp(rest)
  {
    Query.TrimAmpBefore(rest);
  }

  /** The accumulator loop of `GetChangesChan`, with the separator. */
  method ChangesFeedQueryLoop(rest: Options) returns (query: string)
    ensures query == ChangesFeedQuery(rest)
    ensures Query.Tidy(rest) ==> query == "_changes?feed=continuous&" + Query.JoinAmp(rest)
  {
    var acc := "";
    var i := 0;
    while i < |rest|
      invariant 0 <= i <= |rest|
      invariant acc == Query.AmpBefore(rest[..i])
    {
      assert rest[..i + 1][..i] == rest[..i];
      acc := acc + "&" + Query.PairText(rest[i]);
      i := i + 1;
    }
    assert rest[..i] == rest;
    query := if |rest| > 0 then "_changes?feed=continuous&" + Text.Trim(acc, '&') else "_changes?feed=continuous";
    if Query.Tidy(rest) {
      ChangesFeedSeparated(rest);
    }
  }

  /** `GetChangesChan` up to the request that opens the stream: any `feed`
      other than `continuous` is refused before anything is sent and the
      options are left alone; a `continuous` feed is deleted from the
      caller's options, and the rest follow `feed=continuous`. */
  method GetChangesChan(db: Database, opts: OptionsMap) returns (call: Call)
    modifies opts
    ensures var feed := Lookup(old(opts.pairs), "feed");
      && (feed.Some? && !feed.value.Text? ==> call == Reject(Panic) && opts.pairs == old(opts.pairs))
      && (feed.Some? && feed.value.Text? && feed.value.s != Continuous ==>
            call == Reject(OnlyContinuousSupported) && opts.pairs == old(opts.pairs))
      && (feed == Some(OptionValue.Text(Continuous)) ==> opts.pairs == Remove(old(opts.pairs), "feed"))
      && (feed.None? ==> opts.pairs == old(opts.pairs))
      && (feed.None? || feed == Some(OptionValue.Text(Continuous)) ==>
            call == Send(Request("GET", JoinedPath([db.name, ChangesFeedQuery(opts.pairs)]), map[], None)))
  {
    var feed := Lookup(opts.pairs, "feed");
    if feed.Some? && !feed.value.Text? {
      return Reject(Panic);
    }
    if feed.Some? && feed.value.s != Continuous {
      return Reject(OnlyContinuousSupported);
    } else if feed.Some? && feed.value.s == Continuous {
      opts.pairs := Remove(opts.pairs, "feed");
    }
    var query := ChangesFeedQueryLoop(opts.pairs);
    var path := QueryURL([db.name, query]);
    return Send(Request("GET", path, map[], None));
  }

  // ---------------------------------------------------------------------
  // Attachments

  /** `DelAttachment` up to the request: an empty revision is refused
      before anything is sent; otherwise the attachment is deleted with
      the revision in `If-Match`. */
  function DelAttachment(db: Database, id: string, name: string, rev: string): (call: Call)
    ensures call.Reject? <==> rev == ""
    ensures call.Reject? ==> call.error == EmptyRevision
    ensures call.Send? ==> call.request.verb == "DELETE" && call.request.headers == map["If-Match" := rev]
    ensures call.Send? ==> call.request.path == JoinedPath([db.name, id, name])
    ensures call.Send? && name != [] && name[|name| - 1] != '/' ==>
      call.request.path == "/" + db.name + "/" + id + "/" + name
    ensures call.Send? && name == [] && id != [] && id[|id| - 1] != '/' ==>
      call.request.path == "/" + db.name + "/" + id
  {
    EmptyLastSegment(db.name, id);
    var path := JoinedPath([db.name, id, name]);
    assert name != [] && name[|name| - 1] != '/' ==> path == "/" + db.name + "/" + id + "/" + name by {
      if name != [] && name[|name| - 1] != '/' {
        ThreeSegments(db.name, id, name);
      }
    }
    if rev != "" then Send(Request("DELETE", path, map["If-Match" := rev], None))
    else Reject(EmptyRevision)
  }
}
