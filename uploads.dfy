/** What `parseWithFiles` computes: the file controls it selects, the files it
    feeds to the store in order, the sequential encode-and-add fold that stops
    at the first failure, and the merge over the extracted record. */
module Uploads {
  import opened FormData
  import opened FileStore
  import opened Extraction

  /** One call of the store's `add`: a field name and the file handed over,
      `None` when a single-file control has no file (`files[0]` is undefined). */
  datatype Job = Job(name: string, file: Option<File>)

  /** The controls `parseWithFiles` selects: valid elements of type file, in
      collection order. */
  function FileInputs(cs: seq<Control>): seq<Control> {
    if cs == [] then []
    else
      var inputs := FileInputs(cs[..|cs| - 1]);
      var c := cs[|cs| - 1];
      if IsValidElement(c) && IsFile(c) then inputs + [c] else inputs
  }

  /** The selection is exactly the valid file inputs of `cs`. */
  lemma {:induction false} FileInputsMembers(cs: seq<Control>, c: Control)
    ensures c in FileInputs(cs) <==> c in cs && IsValidElement(c) && IsFile(c)
    decreases |cs|
  {
    if cs != [] {
      var prefix, last := cs[..|cs| - 1], cs[|cs| - 1];
      assert cs == prefix + [last];
      FileInputsMembers(prefix, c);
    }
  }

  /** The jobs of one selected control: all of its files with `multiple`, else
      only its first file. */
  function InputJobs(c: Control): seq<Job> {
    if c.multiple then EachFile(c.name, c.files)
    else [Job(c.name, if c.files == [] then None else Some(c.files[0]))]
  }

  /** One job per file, in file order, all under `name`. */
  function EachFile(name: string, files: seq<File>): (jobs: seq<Job>)
    ensures |jobs| == |files|
    ensures forall t :: 0 <= t < |files| ==> jobs[t] == Job(name, Some(files[t]))
  {
    if files == [] then []
    else EachFile(name, files[..|files| - 1]) + [Job(name, Some(files[|files| - 1]))]
  }

  /** The jobs of the selected controls, control after control. */
  function Jobs(inputs: seq<Control>): seq<Job> {
    if inputs == [] then [] else InputJobs(inputs[0]) + Jobs(inputs[1..])
  }

  /** The jobs `parseWithFiles` runs for the controls `cs`. */
  function FileJobs(cs: seq<Control>): seq<Job> {
    Jobs(FileInputs(cs))
  }

  /** The store after running `jobs` in order on the store `hash`, each
      encoding followed by its `add`; the first failed encoding rejects the
      whole run with its error and nothing after it is encoded. */
  function Run(hash: Record, jobs: seq<Job>, encode: Encoder): Result<Record>
    decreases |jobs|
  {
    if jobs == [] then Ok(hash)
    else
      match Convert(encode, jobs[0].file)
      case Err(e) => Err(e)
      case Ok(uri) => Run(StoreAdd(hash, jobs[0].name, uri), jobs[1..], encode)
  }

  /** Reference definition: encode every job first, in order, failing with the
      error of the first job that cannot be encoded. */
  function EncodeAll(jobs: seq<Job>, encode: Encoder): (r: Result<seq<Upload>>)
    ensures r.Ok? <==> forall t :: 0 <= t < |jobs| ==> Convert(encode, jobs[t].file).Ok?
    ensures r.Ok? ==>
              |r.value| == |jobs| &&
              forall t :: 0 <= t < |jobs| ==>
                r.value[t] == Upload(jobs[t].name, Convert(encode, jobs[t].file).value)
    ensures r.Err? ==>
              exists t :: 0 <= t < |jobs| && Convert(encode, jobs[t].file) == Err(r.error) &&
                (forall u :: 0 <= u < t ==> Convert(encode, jobs[u].file).Ok?)
  {
    if jobs == [] then Ok([])
    else
      var prefix := jobs[..|jobs| - 1];
      var job := jobs[|jobs| - 1];
      assert forall t :: 0 <= t < |prefix| ==> prefix[t] == jobs[t];
      match EncodeAll(prefix, encode)
      case Err(e) => Err(e)
      case Ok(ups) =>
        match Convert(encode, job.file)
        case Err(e) => Err(e)
        case Ok(uri) => Ok(ups + [Upload(job.name, uri)])
  }

  /** What `parseWithFiles` resolves to: the store merged over the extracted
      record, or the first read error. */
  function ExtractWithFiles(cs: seq<Control>, encode: Encoder): Result<Record> {
    match Run(map[], FileJobs(cs), encode)
    case Err(e) => Err(e)
    case Ok(hash) => Ok(Extract(cs) + hash)
  }

  /** Running `a + b` is running `a` and then, unless it failed, `b` on the
      store `a` left; in particular a failure sticks. */
  lemma {:induction false} RunAppend(hash: Record, a: seq<Job>, b: seq<Job>, encode: Encoder)
    ensures Run(hash, a + b, encode) ==
            match Run(hash, a, encode)
            case Err(e) => Err(e)
            case Ok(h) => Run(h, b, encode)
    decreases |a|
  {
    if a == [] {
      assert a + b == b;
    } else {
      assert (a + b)[0] == a[0];
      assert (a + b)[1..] == a[1..] + b;
      match Convert(encode, a[0].file)
      case Err(e) =>
      case Ok(uri) => RunAppend(StoreAdd(hash, a[0].name, uri), a[1..], b, encode);
    }
  }

  /** One more job extends a run by that job's encoding and `add`. */
  lemma RunSnoc(hash: Record, jobs: seq<Job>, job: Job, encode: Encoder)
    ensures Run(hash, jobs + [job], encode) ==
            match Run(hash, jobs, encode)
            case Err(e) => Err(e)
            case Ok(h) =>
              match Convert(encode, job.file)
              case Err(e) => Err(e)
              case Ok(uri) => Ok(StoreAdd(h, job.name, uri))
  {
    RunAppend(hash, jobs, [job], encode);
    assert [job][1..] == [];
  }

  /** Interleaving encodings with adds is the same as encoding everything first
      and then adding the encodings in order. */
  lemma {:induction false} RunIsEncodeThenAdd(hash: Record, jobs: seq<Job>, encode: Encoder)
    ensures Run(hash, jobs, encode) ==
            match EncodeAll(jobs, encode)
            case Err(e) => Err(e)
            case Ok(ups) => Ok(AddAll(hash, ups))
    decreases |jobs|
  {
    if jobs != [] {
      var prefix, last := jobs[..|jobs| - 1], jobs[|jobs| - 1];
      assert jobs == prefix + [last];
      RunIsEncodeThenAdd(hash, prefix, encode);
      RunSnoc(hash, prefix, last, encode);
      var r := EncodeAll(jobs, encode);
      if r.Ok? {
        var ups := r.value;
        assert ups[..|ups| - 1] == EncodeAll(prefix, encode).value;
      }
    }
  }

  /** The jobs of two runs of inputs, one after the other, are concatenated. */
  lemma {:induction false} JobsAppend(a: seq<Control>, b: seq<Control>)
    ensures Jobs(a + b) == Jobs(a) + Jobs(b)
    decreases |a|
  {
    if a == [] {
      assert a + b == b;
    } else {
      assert (a + b)[0] == a[0];
      assert (a + b)[1..] == a[1..] + b;
      JobsAppend(a[1..], b);
    }
  }

  /** The run over the jobs of `inputs[i..]` is the run over the jobs of input
      `i` followed, unless it failed, by the run over the remaining inputs. */
  lemma RunRest(hash: Record, inputs: seq<Control>, i: nat, encode: Encoder)
    requires i < |inputs|
    ensures Run(hash, Jobs(inputs[i..]), encode) ==
            match Run(hash, InputJobs(inputs[i]), encode)
            case Err(e) => Err(e)
            case Ok(h) => Run(h, Jobs(inputs[i + 1..]), encode)
  {
    assert inputs[i..][0] == inputs[i] && inputs[i..][1..] == inputs[i + 1..];
    RunAppend(hash, InputJobs(inputs[i]), Jobs(inputs[i + 1..]), encode);
  }

  /** Collection order: a further control adds its jobs at the end, and only
      when it is a valid file input. */
  lemma FileJobsSnoc(cs: seq<Control>, c: Control)
    ensures FileJobs(cs + [c]) ==
            FileJobs(cs) + (if IsValidElement(c) && IsFile(c) then InputJobs(c) else [])
  {
    assert (cs + [c])[..|cs|] == cs;
    if IsValidElement(c) && IsFile(c) {
      JobsAppend(FileInputs(cs), [c]);
      assert [c][1..] == [];
    }
  }

  /** Every job comes from a valid file input: it carries that control's name
      and, when it carries a file, one of that control's files. */
  lemma {:induction false} FileJobsOrigin(cs: seq<Control>, t: nat)
    requires t < |FileJobs(cs)|
    ensures exists i :: 0 <= i < |cs| && IsValidElement(cs[i]) && IsFile(cs[i]) &&
              FileJobs(cs)[t].name == cs[i].name &&
              (FileJobs(cs)[t].file.Some? ==> FileJobs(cs)[t].file.value in cs[i].files)
    decreases |cs|
  {
    var prefix := cs[..|cs| - 1];
    var c := cs[|cs| - 1];
    assert cs == prefix + [c];
    FileJobsSnoc(prefix, c);
    if t < |FileJobs(prefix)| {
      FileJobsOrigin(prefix, t);
      var i :| 0 <= i < |prefix| && IsValidElement(prefix[i]) && IsFile(prefix[i]) &&
               FileJobs(prefix)[t].name == prefix[i].name &&
               (FileJobs(prefix)[t].file.Some? ==> FileJobs(prefix)[t].file.value in prefix[i].files);
      assert cs[i] == prefix[i];
    } else {
      var job := InputJobs(c)[t - |FileJobs(prefix)|];
      assert FileJobs(cs)[t] == job;
      assert cs[|cs| - 1] == c;
    }
  }

  /** Any read failure rejects the whole call, with the error of the first
      file that could not be encoded. */
  lemma ExtractWithFilesFails(cs: seq<Control>, encode: Encoder)
    ensures ExtractWithFiles(cs, encode).Err? <==>
            exists t :: 0 <= t < |FileJobs(cs)| && Convert(encode, FileJobs(cs)[t].file).Err?
    ensures ExtractWithFiles(cs, encode).Err? ==>
            var jobs := FileJobs(cs);
            exists t :: 0 <= t < |jobs| && Convert(encode, jobs[t].file) == Err(ExtractWithFiles(cs, encode).error) &&
              forall u :: 0 <= u < t ==> Convert(encode, jobs[u].file).Ok?
  {
    RunIsEncodeThenAdd(map[], FileJobs(cs), encode);
  }

  /** When every file is encoded (to a non-empty data URI), a name that received
      files holds them, grouped by name alone, as Scalar(e1) or List([e1, .., ek]);
      every other name keeps what `parse` gave it. */
  lemma ExtractWithFilesResult(cs: seq<Control>, encode: Encoder, name: string)
    requires EncodeAll(FileJobs(cs), encode).Ok?
    requires var ups := EncodeAll(FileJobs(cs), encode).value;
             forall t :: 0 <= t < |ups| ==> ups[t].uri != ""
    ensures ExtractWithFiles(cs, encode).Ok?
    ensures var ups := EncodeAll(FileJobs(cs), encode).value;
            var r := ExtractWithFiles(cs, encode).value;
            (UrisFor(ups, name) != [] ==> name in r && r[name] == Collect(UrisFor(ups, name))) &&
            (UrisFor(ups, name) == [] ==>
               (name in r <==> name in Extract(cs)) &&
               (name in Extract(cs) ==> r[name] == Extract(cs)[name]))
  {
    var ups := EncodeAll(FileJobs(cs), encode).value;
    RunIsEncodeThenAdd(map[], FileJobs(cs), encode);
    if UrisFor(ups, name) == [] {
      AddAllKeepsOthers(map[], ups, name);
    } else {
      AddAllGroups(map[], ups, name);
    }
  }

  /** One control named "avatar" with one file resolves to that file's encoding
      as a scalar; a `multiple` control named "docs" with two files resolves to
      both encodings, in file order. */
  lemma FileControlsExample(avatar: File, doc1: File, doc2: File, encode: Encoder)
    requires encode(avatar) == Ok("data:a") && encode(doc1) == Ok("data:1") && encode(doc2) == Ok("data:2")
    ensures ExtractWithFiles([Control("avatar", "file", "a.png", false, None, false, [avatar]),
                              Control("docs", "file", "1.pdf", false, None, true, [doc1, doc2])], encode)
         == Ok(map["avatar" := Scalar("data:a"), "docs" := List(["data:1", "data:2"])])
  {
    var ja, j1, j2 := Job("avatar", Some(avatar)), Job("docs", Some(doc1)), Job("docs", Some(doc2));
    ExampleJobs(avatar, doc1, doc2);
    var first := map["avatar" := Scalar("data:a")];
    var second := first["docs" := Scalar("data:1")];
    var third := second["docs" := List(["data:1", "data:2"])];
    assert Run(second, [j2], encode) == Ok(third) by {
      assert [j2][1..] == [];
    }
    assert Run(first, [j1, j2], encode) == Ok(third) by {
      assert [j1, j2][1..] == [j2];
    }
    assert Run(map[], [ja, j1, j2], encode) == Ok(third) by {
      assert [ja, j1, j2][1..] == [j1, j2];
    }
    assert map[] + third == map["avatar" := Scalar("data:a"), "docs" := List(["data:1", "data:2"])];
  }

  /** The controls of `FileControlsExample`: nothing for `parse`, three jobs. */
  lemma ExampleJobs(avatar: File, doc1: File, doc2: File)
    ensures var a := Control("avatar", "file", "a.png", false, None, false, [avatar]);
            var d := Control("docs", "file", "1.pdf", false, None, true, [doc1, doc2]);
            Extract([a, d]) == map[] &&
            FileJobs([a, d]) == [Job("avatar", Some(avatar)), Job("docs", Some(doc1)), Job("docs", Some(doc2))]
  {
    var a := Control("avatar", "file", "a.png", false, None, false, [avatar]);
    var d := Control("docs", "file", "1.pdf", false, None, true, [doc1, doc2]);
    var ja, j1, j2 := Job("avatar", Some(avatar)), Job("docs", Some(doc1)), Job("docs", Some(doc2));
    assert Extract([a, d]) == map[] by {
      assert !Included(a) && !Included(d);
      assert [a, d][..1] == [a];
      assert [a][..0] == [];
      assert Extract([a]) == map[];
    }
    var ia, id := InputJobs(a), InputJobs(d);
    assert ia == [ja];
    assert id == [j1, j2];
    assert FileJobs([a]) == ia by {
      FileJobsSnoc([], a);
      assert [] + [a] == [a];
      assert FileJobs([]) == [];
    }
    assert FileJobs([a, d]) == ia + id by {
      FileJobsSnoc([a], d);
      assert [a] + [d] == [a, d];
    }
    assert ia + id == [ja, j1, j2];
  }
}
