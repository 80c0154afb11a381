/**
 * The repository filesystem helpers: existence checks, write-if-absent,
 * whole-file reads, and reading and writing multi-document YAML files. The
 * filesystem is a table from paths to contents; YAML encoding, decoding,
 * splitting and joining are caller-supplied functions.
 */
module Fs {
  import opened Base

  type Path = string

  datatype FsError =
    | NotExist(path: Path)                           // the path has no file
    | IoFault(path: Path, reason: string)            // any other filesystem failure
    | ExistsCheckFailed(path: Path, cause: FsError)  // "failed to check if file exists on repo at ..."
    | CreateFailed(path: Path, cause: FsError)       // "failed to create file at ..."
    | TooFewManifests(expected: nat, path: Path)     // "expected at least N manifests when reading ..."
    | YamlError(reason: string)                      // a YAML encoder or decoder failed

  /**
   * Where the filesystem fails: reaching `access` paths (stat, open) fails
   * with an error other than not-exist; writing `write` paths fails.
   */
  datatype Faults = Faults(access: map<Path, string>, write: map<Path, string>)

  datatype StatResult = StatOk(size: nat) | StatFailed(err: FsError)

  /** The filesystem's stat of `path`. */
  function Stat(files: map<Path, Bytes>, faults: Faults, path: Path): (s: StatResult)
    ensures s.StatOk? <==> path in files && path !in faults.access
    ensures s.StatFailed? && s.err.NotExist? <==> path !in files && path !in faults.access
  {
    if path in faults.access then StatFailed(IoFault(path, faults.access[path]))
    else if path in files then StatOk(|files[path]|)
    else StatFailed(NotExist(path))
  }

  /** Exists: the three-way reading of a stat result. */
  function ClassifyStat(s: StatResult): (r: Result<bool, FsError>)
    ensures r == Success(true) <==> s.StatOk?
    ensures r == Success(false) <==> s.StatFailed? && s.err.NotExist?
    ensures r.Failure? <==> s.StatFailed? && !s.err.NotExist?
    ensures r.Failure? ==> r.error == s.err
  {
    match s
    case StatOk(_) => Success(true)
    case StatFailed(e) => if e.NotExist? then Success(false) else Failure(e)
  }

  /** The new table and outcome of writing `data` at `path` (truncating any old file). */
  datatype Written = Written(files: map<Path, Bytes>, outcome: Outcome<FsError>)

  function WriteFileOf(files: map<Path, Bytes>, faults: Faults, path: Path, data: Bytes): (w: Written)
    ensures w.outcome.Pass? <==> path !in faults.write
    ensures w.outcome.Pass? ==> w.files == files[path := data]
    ensures w.outcome.Fail? ==> w.files == files && w.outcome.error == IoFault(path, faults.write[path])
  {
    if path in faults.write then Written(files, Fail(IoFault(path, faults.write[path])))
    else Written(files[path := data], Pass)
  }

  /** What CheckExistsOrWrite returns, the table after it, and whether it called WriteFile. */
  datatype WriteIfAbsent = WriteIfAbsent(existed: bool, outcome: Outcome<FsError>, files: map<Path, Bytes>, wrote: bool)

  function CheckExistsOrWriteOf(files: map<Path, Bytes>, faults: Faults, filename: Path, data: Bytes): (w: WriteIfAbsent)
    ensures w.existed ==> w.outcome == Pass && !w.wrote
    ensures w.wrote <==> filename !in files && filename !in faults.access
    ensures !w.wrote ==> w.files == files
    ensures w.outcome == Pass ==> filename in w.files
    ensures w.outcome == Pass && w.wrote ==> w.files[filename] == data
    ensures forall p :: p != filename ==> (p in w.files <==> p in files)
    ensures forall p :: p != filename && p in files ==> w.files[p] == files[p]
  {
    match ClassifyStat(Stat(files, faults, filename))
    case Failure(e) => WriteIfAbsent(false, Fail(ExistsCheckFailed(filename, e)), files, false)
    case Success(true) => WriteIfAbsent(true, Pass, files, false)
    case Success(false) =>
      var w := WriteFileOf(files, faults, filename, data);
      if w.outcome.Fail? then WriteIfAbsent(false, Fail(CreateFailed(filename, w.outcome.error)), w.files, true)
      else WriteIfAbsent(false, Pass, w.files, true)
  }

  /** An existing file: the result is (true, nil) and nothing is written. */
  lemma CheckExistsOrWriteExisting(files: map<Path, Bytes>, faults: Faults, filename: Path, data: Bytes)
    requires filename in files && filename !in faults.access
    ensures CheckExistsOrWriteOf(files, faults, filename, data) == WriteIfAbsent(true, Pass, files, false)
  {
  }

  /**
   * An absent file: `data` is written at `filename` and the result is
   * (false, nil), or the write fails and its error is wrapped; no other path
   * changes either way.
   */
  lemma CheckExistsOrWriteAbsent(files: map<Path, Bytes>, faults: Faults, filename: Path, data: Bytes)
    requires filename !in files && filename !in faults.access
    ensures var w := CheckExistsOrWriteOf(files, faults, filename, data);
      !w.existed && w.wrote &&
      (filename !in faults.write ==> w.outcome == Pass && filename in w.files && w.files[filename] == data) &&
      (filename in faults.write ==>
        w.outcome == Fail(CreateFailed(filename, IoFault(filename, faults.write[filename]))) && w.files == files) &&
      (forall p :: p != filename ==> (p in w.files <==> p in files))
    ensures var w := CheckExistsOrWriteOf(files, faults, filename, data);
      forall p :: p != filename && p in files ==> w.files[p] == files[p]
  {
  }

  /** A failing existence check: the error is wrapped and nothing is written. */
  lemma CheckExistsOrWriteStatFails(files: map<Path, Bytes>, faults: Faults, filename: Path, data: Bytes)
    requires filename in faults.access
    ensures CheckExistsOrWriteOf(files, faults, filename, data) ==
      WriteIfAbsent(false, Fail(ExistsCheckFailed(filename, IoFault(filename, faults.access[filename]))), files, false)
  {
  }

  /**
   * Idempotence: after a call that returned no error, a second call with the
   * same filename and any data returns (true, nil) and changes nothing.
   */
  lemma CheckExistsOrWriteIdempotent(files: map<Path, Bytes>, faults: Faults, filename: Path, data: Bytes, data': Bytes)
    requires CheckExistsOrWriteOf(files, faults, filename, data).outcome == Pass
    ensures var first := CheckExistsOrWriteOf(files, faults, filename, data);
      CheckExistsOrWriteOf(first.files, faults, filename, data') == WriteIfAbsent(true, Pass, first.files, false)
  {
  }

  /** A ReadYamls target: a nil pointer, or a pointer to a value the decoder fills in. */
  datatype Target<V> = NilTarget | Target(value: V)

  /**
   * What decoding a document into a target leaves: the target's new value
   * and the error, if any. A failing decode may have filled part of the
   * target already, so the value is meaningful on both paths.
   */
  datatype Decoded<V> = Decoded(value: V, err: Option<FsError>)

  /** Decoding `doc` into a target that holds `v`. */
  type Unmarshal<!V> = (Bytes, V) -> Decoded<V>

  /** Document `j` goes into target `j` without error (a nil target is skipped). */
  predicate DecodesAt<V>(ts: seq<Target<V>>, docs: seq<Bytes>, j: nat, unmarshal: Unmarshal<V>)
    requires j < |ts| <= |docs|
  {
    ts[j].NilTarget? || unmarshal(docs[j], ts[j].value).err.None?
  }

  /** The first target from `from` on whose document fails to decode, or |ts| when none does. */
  function FirstDecodeFailure<V>(ts: seq<Target<V>>, docs: seq<Bytes>, from: nat, unmarshal: Unmarshal<V>): (k: nat)
    requires from <= |ts| <= |docs|
    ensures from <= k <= |ts|
    ensures forall j :: from <= j < k ==> DecodesAt(ts, docs, j, unmarshal)
    ensures k < |ts| ==> !DecodesAt(ts, docs, k, unmarshal)
    decreases |ts| - from
  {
    if from == |ts| then from
    else if !DecodesAt(ts, docs, from, unmarshal) then from
    else FirstDecodeFailure(ts, docs, from + 1, unmarshal)
  }

  function DecodeInto<V>(t: Target<V>, doc: Bytes, unmarshal: Unmarshal<V>): Target<V> {
    match t
    case NilTarget => NilTarget
    case Target(v) => Target(unmarshal(doc, v).value)
  }

  /**
   * The targets after documents 0 .. n-1 were decoded into them, whether or
   * not the decode succeeded; nil targets and later targets are untouched.
   */
  function DecodedUpTo<V>(ts: seq<Target<V>>, docs: seq<Bytes>, n: nat, unmarshal: Unmarshal<V>): (r: seq<Target<V>>)
    requires |ts| <= |docs|
    ensures |r| == |ts|
    ensures forall j :: 0 <= j < |ts| && (n <= j || ts[j].NilTarget?) ==> r[j] == ts[j]
    ensures forall j :: 0 <= j < |ts| && j < n && ts[j].Target? ==>
      r[j] == Target(unmarshal(docs[j], ts[j].value).value)
  {
    seq(|ts|, j requires 0 <= j < |ts| => if j < n then DecodeInto(ts[j], docs[j], unmarshal) else ts[j])
  }

  /**
   * Every object encoded in order, or the error of the first object that
   * fails to encode.
   */
  function MarshalAll<V>(objs: seq<V>, marshal: V -> Result<Bytes, FsError>): (r: Result<seq<Bytes>, FsError>)
    ensures r.Success? ==> |r.value| == |objs| && forall i :: 0 <= i < |objs| ==> marshal(objs[i]) == Success(r.value[i])
    ensures r.Failure? ==> exists i :: 0 <= i < |objs| && marshal(objs[i]) == Failure(r.error) &&
                            (forall j :: 0 <= j < i ==> marshal(objs[j]).Success?)
  {
    if objs == [] then Success([])
    else match marshal(objs[0])
      case Failure(e) => Failure(e)
      case Success(b) =>
        match MarshalAll(objs[1..], marshal)
        case Failure(e) =>
          var i :| 0 <= i < |objs| - 1 && marshal(objs[1..][i]) == Failure(e) &&
            forall j :: 0 <= j < i ==> marshal(objs[1..][j]).Success?;
          assert marshal(objs[i + 1]) == Failure(e);
          Failure(e)
        case Success(bs) => Success([b] + bs)
  }

  /** When every object encodes, MarshalAll yields exactly their encodings, in order. */
  lemma {:induction false} MarshalAllSucceeds<V>(objs: seq<V>, marshal: V -> Result<Bytes, FsError>, encoded: seq<Bytes>)
    requires |encoded| == |objs|
    requires forall i :: 0 <= i < |objs| ==> marshal(objs[i]) == Success(encoded[i])
    ensures MarshalAll(objs, marshal) == Success(encoded)
    decreases |objs|
  {
    if objs != [] {
      MarshalAllSucceeds(objs[1..], marshal, encoded[1..]);
      assert encoded == [encoded[0]] + encoded[1..];
    }
  }

  /** When object `i` is the first that fails to encode, MarshalAll fails with its error. */
  lemma MarshalAllFails<V>(objs: seq<V>, marshal: V -> Result<Bytes, FsError>, i: nat)
    requires i < |objs| && marshal(objs[i]).Failure?
    requires forall j :: 0 <= j < i ==> marshal(objs[j]).Success?
    ensures MarshalAll(objs, marshal) == Failure(marshal(objs[i]).error)
  {
  }

  /** A write that WriteFile was asked to make. */
  datatype WriteCall = WriteCall(path: Path, data: Bytes)

  /** The filesystem an fs helper works on. */
  class FileSystem {
    var files: map<Path, Bytes>
    const faults: Faults
    /** Every WriteFile call so far, in order. */
    ghost var writes: seq<WriteCall>

    constructor (files: map<Path, Bytes>, faults: Faults)
      ensures this.files == files && this.faults == faults && writes == []
    {
      this.files := files;
      this.faults := faults;
      writes := [];
    }

    /** Exists: true for a file that stats, false for not-exist, any other stat error passed on. */
    function Exists(path: Path): (r: Result<bool, FsError>)
      reads this
      ensures r == Success(true) <==> path in files && path !in faults.access
      ensures r == Success(false) <==> path !in files && path !in faults.access
      ensures r.Failure? <==> path in faults.access
      ensures r.Failure? ==> r.error == IoFault(path, faults.access[path])
    {
      ClassifyStat(Stat(files, faults, path))
    }

    /** ReadFile: the whole file, or the error opening it. */
    function ReadFile(filename: Path): (r: Result<Bytes, FsError>)
      reads this
      ensures r.Success? <==> filename in files && filename !in faults.access
      ensures r.Success? ==> r.value == files[filename]
      ensures filename in faults.access ==> r == Failure(IoFault(filename, faults.access[filename]))
      ensures filename !in faults.access && filename !in files ==> r == Failure(NotExist(filename))
    {
      if filename in faults.access then Failure(IoFault(filename, faults.access[filename]))
      else if filename in files then Success(files[filename])
      else Failure(NotExist(filename))
    }

    /** The filesystem's WriteFile: create or truncate `path` and write `data`. */
    method WriteFile(path: Path, data: Bytes) returns (r: Outcome<FsError>)
      modifies this
      ensures writes == old(writes) + [WriteCall(path, data)]
      ensures Written(files, r) == WriteFileOf(old(files), faults, path, data)
    {
      writes := writes + [WriteCall(path, data)];
      if path in faults.write {
        r := Fail(IoFault(path, faults.write[path]));
      } else {
        files := files[path := data];
        r := Pass;
      }
    }

    /** Write `data` at `filename` unless a file is already there; report whether one was. */
    method CheckExistsOrWrite(filename: Path, data: Bytes) returns (existed: bool, r: Outcome<FsError>)
      modifies this
      ensures var w := CheckExistsOrWriteOf(old(files), faults, filename, data);
        existed == w.existed && r == w.outcome && files == w.files &&
        writes == old(writes) + (if w.wrote then [WriteCall(filename, data)] else [])
    {
      var present := Exists(filename);
      if present.Failure? {
        return false, Fail(ExistsCheckFailed(filename, present.error));
      }
      if present.value {
        return true, Pass;
      }
      var err := WriteFile(filename, data);
      if err.Fail? {
        return false, Fail(CreateFailed(filename, err.error));
      }
      return false, Pass;
    }

    /**
     * Read `filename`, split it into documents and decode document i into
     * target i, skipping nil targets and stopping at the first decoding error;
     * the failing target keeps whatever the decoder left in it.
     */
    method ReadYamls<V>(filename: Path, targets: array<Target<V>>, split: Bytes -> seq<Bytes>,
                        unmarshal: Unmarshal<V>) returns (r: Outcome<FsError>)
      modifies targets
      ensures ReadFile(filename).Failure? ==>
        r == Fail(ReadFile(filename).error) && targets[..] == old(targets[..])
      ensures ReadFile(filename).Success? && |split(ReadFile(filename).value)| < targets.Length ==>
        r == Fail(TooFewManifests(targets.Length, filename)) && targets[..] == old(targets[..])
      ensures ReadFile(filename).Success? && |split(ReadFile(filename).value)| >= targets.Length ==>
        var docs := split(ReadFile(filename).value);
        var stop := FirstDecodeFailure(old(targets[..]), docs, 0, unmarshal);
        targets[..] == DecodedUpTo(old(targets[..]), docs, if stop < targets.Length then stop + 1 else stop, unmarshal) &&
        r == (if stop < targets.Length then Fail(unmarshal(docs[stop], old(targets[stop]).value).err.value) else Pass)
    {
      var data := ReadFile(filename);
      if data.Failure? {
        return Fail(data.error);
      }
      var yamls := split(data.value);
      if |yamls| < targets.Length {
        return Fail(TooFewManifests(targets.Length, filename));
      }
      ghost var ts := targets[..];
      var i := 0;
      while i < targets.Length
        invariant 0 <= i <= targets.Length
        invariant forall j :: 0 <= j < i ==> DecodesAt(ts, yamls, j, unmarshal)
        invariant targets[..] == DecodedUpTo(ts, yamls, i, unmarshal)
      {
        if targets[i].Target? {
          var decoded := unmarshal(yamls[i], targets[i].value);
          targets[i] := Target(decoded.value);
          if decoded.err.Some? {
            assert !DecodesAt(ts, yamls, i, unmarshal);
            assert FirstDecodeFailure(ts, yamls, 0, unmarshal) == i;
            assert targets[..] == DecodedUpTo(ts, yamls, i + 1, unmarshal);
            return Fail(decoded.err.value);
          }
        }
        i := i + 1;
      }
      assert FirstDecodeFailure(ts, yamls, 0, unmarshal) == targets.Length;
      r := Pass;
    }

    /**
     * Encode every object, giving up at the first failure before anything is
     * written; otherwise one write of the joined documents, in argument order.
     */
    method WriteYamls<V>(filename: Path, objs: seq<V>, marshal: V -> Result<Bytes, FsError>,
                         join: seq<Bytes> -> Bytes) returns (r: Outcome<FsError>)
      modifies this
      ensures MarshalAll(objs, marshal).Failure? ==>
        r == Fail(MarshalAll(objs, marshal).error) && files == old(files) && writes == old(writes)
      ensures MarshalAll(objs, marshal).Success? ==>
        var data := join(MarshalAll(objs, marshal).value);
        writes == old(writes) + [WriteCall(filename, data)] &&
        Written(files, r) == WriteFileOf(old(files), faults, filename, data)
    {
      var yamls := new Bytes[|objs|];
      for i := 0 to |objs|
        invariant files == old(files) && writes == old(writes)
        invariant forall j :: 0 <= j < i ==> marshal(objs[j]) == Success(yamls[j])
      {
        var encoded := marshal(objs[i]);
        if encoded.Failure? {
          MarshalAllFails(objs, marshal, i);
          return Fail(encoded.error);
        }
        yamls[i] := encoded.value;
      }
      MarshalAllSucceeds(objs, marshal, yamls[..]);
      r := WriteFile(filename, join(yamls[..]));
    }
  }
}
