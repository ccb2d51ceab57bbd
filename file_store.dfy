/** The per-call store that accumulates encoded files by field name, and the
    merge of that store over the extracted record. */
module FileStore {
  import opened FormData

  /** One successfully encoded file, with the field name it was read under. */
  datatype Upload = Upload(name: string, uri: string)

  /** The encoding step of one `add`: a missing file (`files[0]` of an empty
      list) is rejected before anything is read. */
  function Convert(encode: Encoder, file: Option<File>): Result<string> {
    match file
    case None => Err(NotABlob)
    case Some(f) => encode(f)
  }

  /** The update `add` makes once the encoding is available. A stored scalar
      is truthy only when it is a non-empty string, so an empty scalar is
      overwritten as if the name were absent; a stored list is always truthy. */
  function StoreAdd(hash: Record, name: string, uri: string): (r: Record)
    ensures r.Keys == hash.Keys + {name}
    ensures forall k :: k in hash && k != name ==> r[k] == hash[k]
  {
    if name in hash && hash[name].Scalar? && hash[name].text != "" then
      hash[name := List([hash[name].text, uri])]
    else if name in hash && hash[name].List? then
      hash[name := List(hash[name].items + [uri])]
    else
      hash[name := Scalar(uri)]
  }

  /** The store after adding `uploads` one by one, in order. */
  function AddAll(hash: Record, uploads: seq<Upload>): Record {
    if uploads == [] then hash
    else
      var last := uploads[|uploads| - 1];
      StoreAdd(AddAll(hash, uploads[..|uploads| - 1]), last.name, last.uri)
  }

  /** The encodings added under `name`, in order. */
  function UrisFor(uploads: seq<Upload>, name: string): seq<string> {
    if uploads == [] then []
    else
      var uris := UrisFor(uploads[..|uploads| - 1], name);
      var last := uploads[|uploads| - 1];
      if last.name == name then uris + [last.uri] else uris
  }

  /** What a group of one or more encodings is stored as. */
  function Collect(uris: seq<string>): FieldValue
    requires uris != []
  {
    if |uris| == 1 then Scalar(uris[0]) else List(uris)
  }

  /** A name that is never added keeps exactly what the store had for it. */
  lemma {:induction false} AddAllKeepsOthers(hash: Record, uploads: seq<Upload>, name: string)
    requires UrisFor(uploads, name) == []
    ensures name in AddAll(hash, uploads) <==> name in hash
    ensures name in hash ==> AddAll(hash, uploads)[name] == hash[name]
    decreases |uploads|
  {
    if uploads != [] {
      AddAllKeepsOthers(hash, uploads[..|uploads| - 1], name);
    }
  }

  /** Adding encodings e1..ek under a name the store did not hold gives
      Scalar(e1) for k = 1 and List([e1, .., ek]) for k >= 2, whatever other
      names are added in between: grouping is by name alone. */
  lemma {:induction false} AddAllGroups(hash: Record, uploads: seq<Upload>, name: string)
    requires forall t :: 0 <= t < |uploads| ==> uploads[t].uri != ""
    requires name !in hash && UrisFor(uploads, name) != []
    ensures name in AddAll(hash, uploads)
    ensures AddAll(hash, uploads)[name] == Collect(UrisFor(uploads, name))
    decreases |uploads|
  {
    var prefix, last := uploads[..|uploads| - 1], uploads[|uploads| - 1];
    var before, h := UrisFor(prefix, name), AddAll(hash, prefix);
    assert AddAll(hash, uploads) == StoreAdd(h, last.name, last.uri);
    if before == [] {
      AddAllKeepsOthers(hash, prefix, name);
      assert UrisFor(uploads, name) == [last.uri];
    } else {
      assert forall t :: 0 <= t < |prefix| ==> prefix[t] == uploads[t];
      AddAllGroups(hash, prefix, name);
      if last.name == name {
        assert UrisFor(uploads, name) == before + [last.uri];
        if |before| == 1 {
          UrisComeFromUploads(prefix, name, 0);
          assert h[name] == Scalar(before[0]);
          assert before + [last.uri] == [before[0], last.uri];
        } else {
          assert h[name] == List(before);
        }
      }
    }
  }

  /** Every encoding grouped under a name is the encoding of an upload added
      under that name, and so is non-empty when every added encoding is. */
  lemma {:induction false} UrisComeFromUploads(uploads: seq<Upload>, name: string, i: nat)
    requires i < |UrisFor(uploads, name)|
    ensures exists t :: 0 <= t < |uploads| && uploads[t].name == name && uploads[t].uri == UrisFor(uploads, name)[i]
    ensures (forall t :: 0 <= t < |uploads| ==> uploads[t].uri != "") ==> UrisFor(uploads, name)[i] != ""
    decreases |uploads|
  {
    var prefix := uploads[..|uploads| - 1];
    assert forall t :: 0 <= t < |prefix| ==> prefix[t] == uploads[t];
    if i < |UrisFor(prefix, name)| {
      UrisComeFromUploads(prefix, name, i);
    }
  }

  /** The store built by `_createStoreForFiles`: a name -> encoding record that
      `add` updates in place. */
  class Store {
    var hash: Record

    constructor ()
      ensures hash == map[]
    {
      hash := map[];
    }

    /** `get`: the accumulated record. */
    function Get(): Record
      reads this
    {
      hash
    }

    /** `add`: encode `file` and, when that succeeds, record the encoding under
        `name`; on failure report the encoder's error and leave the store alone. */
    method Add(name: string, file: Option<File>, encode: Encoder) returns (outcome: Result<()>)
      modifies this
      ensures outcome.Err? <==> Convert(encode, file).Err?
      ensures outcome.Err? ==> outcome.error == Convert(encode, file).error && hash == old(hash)
      ensures outcome.Ok? ==> hash == StoreAdd(old(hash), name, Convert(encode, file).value)
    {
      var converted := Convert(encode, file);
      if converted.Err? {
        return Err(converted.error);
      }
      var uri := converted.value;
      if name in hash && hash[name].Scalar? && hash[name].text != "" {
        hash := hash[name := List([hash[name].text, uri])];
      } else if name in hash && hash[name].List? {
        hash := hash[name := List(hash[name].items + [uri])];
      } else {
        hash := hash[name := Scalar(uri)];
      }
      outcome := Ok(());
    }

    /** `mergeTo`: write every stored entry into `to`, key by key. Stored keys
        take the store's value; every other key of `to` is kept as it was. */
    method MergeTo(to: Record) returns (merged: Record)
      ensures merged.Keys == to.Keys + hash.Keys
      ensures forall k :: k in hash ==> merged[k] == hash[k]
      ensures forall k :: k in to && k !in hash ==> merged[k] == to[k]
      ensures merged == to + hash
    {
      var hashFiles := Get();
      merged := to;
      var pending := hashFiles.Keys;
      while pending != {}
        invariant pending <= hashFiles.Keys
        invariant merged.Keys == to.Keys + (hashFiles.Keys - pending)
        invariant forall k :: k in hashFiles && k !in pending ==> merged[k] == hashFiles[k]
        invariant forall k :: k in to && (k !in hashFiles || k in pending) ==> merged[k] == to[k]
        decreases pending
      {
        var k :| k in pending;
        merged := merged[k := hashFiles[k]];
        pending := pending - {k};
      }
      assert merged == to + hash;
    }
  }
}
