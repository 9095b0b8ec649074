/**
 The bounded, atomic file upload (`write_upload` in `core.py`) over a file system that remembers every
 state it has been in. Each operation on the file system or the source may fail, as an oracle decides.
 */
module Upload {
  import opened Common
  import Paths

  type Path = seq<Bytes>

  datatype UploadError = PathViolation | UploadTooLarge | IoError

  datatype Operation = MakeParent | CreateTemporary | Read(index: nat) | Write(index: nat) | Close | Replace | Unlink

  function Lookup(files: map<Path, Bytes>, p: Path): Option<Bytes> {
    if p in files then Some(files[p]) else None
  }

  /** What the source yields: reading stops at the end or at the first empty read. */
  function Content(chunks: seq<Bytes>): Bytes {
    if chunks == [] || chunks[0] == [] then [] else chunks[0] + Content(chunks[1..])
  }

  class FileSystem {
    var files: map<Path, Bytes>
    ghost var history: seq<map<Path, Bytes>>

    constructor (initial: map<Path, Bytes>)
      ensures files == initial && history == [initial]
    {
      files := initial;
      history := [initial];
    }

    method Store(p: Path, data: Bytes)
      modifies this
      ensures files == old(files)[p := data] && history == old(history) + [files]
    {
      files := files[p := data];
      history := history + [files];
    }

    method Append(p: Path, data: Bytes)
      requires p in files
      modifies this
      ensures files == old(files)[p := old(files)[p] + data] && history == old(history) + [files]
    {
      Store(p, files[p] + data);
    }

    method Rename(from: Path, to: Path)
      requires from in files
      modifies this
      ensures files == (old(files) - {from})[to := old(files)[from]] && history == old(history) + [files]
    {
      files := (files - {from})[to := files[from]];
      history := history + [files];
    }

    method Remove(p: Path)
      modifies this
      ensures files == old(files) - {p} && history == old(history) + [files]
    {
      files := files - {p};
      history := history + [files];
    }
  }

  // ----- Specification -----

  /** Why copying chunk `index` and what follows stops early, when `total` bytes went before. */
  function CopyError(fails: Operation -> bool, limit: nat, chunks: seq<Bytes>, index: nat, total: nat): Option<UploadError>
    decreases |chunks| - index
  {
    if fails(Read(index)) then Some(IoError)
    else if index >= |chunks| || chunks[index] == [] then None
    else if total + |chunks[index]| > limit then Some(UploadTooLarge)
    else if fails(Write(index)) then Some(IoError)
    else CopyError(fails, limit, chunks, index + 1, total + |chunks[index]|)
  }

  function Outcome(fails: Operation -> bool, limit: nat, chunks: seq<Bytes>): Option<UploadError> {
    if fails(MakeParent) || fails(CreateTemporary) then Some(IoError)
    else
      var copy := CopyError(fails, limit, chunks, 0, 0);
      var failure := if fails(Close) || (copy.None? && fails(Replace)) then Some(IoError) else copy;
      if failure.Some? && fails(Unlink) then Some(IoError) else failure
  }

  /** A state an observer may see: the destination as before or complete, nothing else touched but the
      temporary file, and that never above the limit. */
  ghost predicate Atomic(before: map<Path, Bytes>, now: map<Path, Bytes>, destination: Path, temporary: Path, content: Bytes, limit: nat)
  {
    && (forall p :: p != destination && p != temporary ==> Lookup(now, p) == Lookup(before, p))
    && (temporary != destination ==>
          Lookup(now, destination) == Lookup(before, destination) || (Lookup(now, destination) == Some(content) && |content| <= limit))
    && (temporary in now ==> |now[temporary]| <= limit)
  }

  function TemporaryPath(destination: Path, name: Bytes): Path
    requires destination != []
  {
    destination[..|destination| - 1] + [name]
  }

  /** A state in which nothing differs but the temporary file. */
  ghost predicate Staged(before: map<Path, Bytes>, now: map<Path, Bytes>, temporary: Path, limit: nat) {
    temporary in now && now == before[temporary := now[temporary]] && |now[temporary]| <= limit
  }

  lemma StagedIsAtomic(before: map<Path, Bytes>, now: map<Path, Bytes>, destination: Path, temporary: Path, content: Bytes, limit: nat)
    requires Staged(before, now, temporary, limit)
    ensures Atomic(before, now, destination, temporary, content, limit)
    ensures temporary !in before ==> now - {temporary} == before
  {
    forall p | p != temporary
      ensures Lookup(now, p) == Lookup(before, p)
    {
      assert p in now <==> p in before;
    }
  }

  lemma RestOfContent(chunks: seq<Bytes>, index: nat)
    requires index <= |chunks|
    ensures Content(chunks[index..])
         == if index == |chunks| || chunks[index] == [] then [] else chunks[index] + Content(chunks[index + 1..])
  {
    if index < |chunks| {
      assert chunks[index..][1..] == chunks[index + 1..];
    }
  }

  // ----- The operation -----

  /** The block that fills the temporary file. */
  method Copy(fs: FileSystem, temporary: Path, limit: nat, chunks: seq<Bytes>, fails: Operation -> bool, written: nat -> nat)
    returns (failure: Option<UploadError>)
    requires temporary in fs.files && fs.files[temporary] == []
    modifies fs
    ensures failure == CopyError(fails, limit, chunks, 0, 0)
    ensures Staged(old(fs.files), fs.files, temporary, limit)
    ensures failure.None? ==> fs.files[temporary] == Content(chunks)
    ensures old(fs.history) <= fs.history
    ensures forall k :: |old(fs.history)| <= k < |fs.history| ==> Staged(old(fs.files), fs.history[k], temporary, limit)
  {
    var total: nat := 0;
    var index: nat := 0;
    while !fails(Read(index)) && index < |chunks| && chunks[index] != []
      invariant index <= |chunks| && old(fs.history) <= fs.history
      invariant Staged(old(fs.files), fs.files, temporary, limit) && total == |fs.files[temporary]|
      invariant fs.files[temporary] + Content(chunks[index..]) == Content(chunks)
      invariant CopyError(fails, limit, chunks, 0, 0) == CopyError(fails, limit, chunks, index, total)
      invariant forall k :: |old(fs.history)| <= k < |fs.history| ==> Staged(old(fs.files), fs.history[k], temporary, limit)
      decreases |chunks| - index
    {
      total := total + |chunks[index]|;
      if total > limit {
        return Some(UploadTooLarge);
      }
      if fails(Write(index)) {
        fs.Append(temporary, Clip(chunks[index], written(index)));
        return Some(IoError);
      }
      RestOfContent(chunks, index);
      Assoc(fs.files[temporary], chunks[index], Content(chunks[index + 1..]));
      fs.Append(temporary, chunks[index]);
      index := index + 1;
    }
    RestOfContent(chunks, index);
    return if fails(Read(index)) then Some(IoError) else None;
  }

  /** `written(i)` is how much of chunk `i` a failing write leaves behind; `name` is the fresh name of the
      temporary file. */
  method WriteUpload(fs: FileSystem, workspace: Path, requested: Bytes, limit: nat, chunks: seq<Bytes>, name: Bytes,
                     fails: Operation -> bool, written: nat -> nat)
    returns (r: Result<Path, UploadError>)
    requires Paths.ResolveWorkspacePath(workspace, requested).Ok? ==>
               TemporaryPath(Paths.ResolveWorkspacePath(workspace, requested).value, name) !in fs.files
    modifies fs
    ensures Paths.ResolveWorkspacePath(workspace, requested).Err? ==>
              r == Err(PathViolation) && fs.files == old(fs.files) && fs.history == old(fs.history)
    ensures Paths.ResolveWorkspacePath(workspace, requested).Ok? ==>
              var destination := Paths.ResolveWorkspacePath(workspace, requested).value;
              var temporary := TemporaryPath(destination, name);
              && r == (match Outcome(fails, limit, chunks) case None => Ok(destination) case Some(e) => Err(e))
              && (r.Ok? ==> fs.files == old(fs.files)[destination := Content(chunks)] && |Content(chunks)| <= limit)
              && (r.Err? ==> fs.files - {temporary} == old(fs.files))
              && (r.Err? && !fails(Unlink) ==> fs.files == old(fs.files))
              && old(fs.history) <= fs.history
              && (forall k :: |old(fs.history)| <= k < |fs.history| ==>
                    Atomic(old(fs.files), fs.history[k], destination, temporary, Content(chunks), limit))
  {
    var resolved := Paths.ResolveWorkspacePath(workspace, requested);
    if resolved.Err? {
      return Err(PathViolation);
    }
    var destination := resolved.value;
    if fails(MakeParent) || fails(CreateTemporary) {
      return Err(IoError);
    }
    var temporary := TemporaryPath(destination, name);
    fs.Store(temporary, []);
    var failure := Copy(fs, temporary, limit, chunks, fails, written);
    assert Staged(old(fs.files), fs.files, temporary, limit);
    if fails(Close) || (failure.None? && fails(Replace)) {
      failure := Some(IoError);
    }
    forall k | |old(fs.history)| <= k < |fs.history|
      ensures Atomic(old(fs.files), fs.history[k], destination, temporary, Content(chunks), limit)
    {
      assert Staged(old(fs.files), fs.history[k], temporary, limit);
      StagedIsAtomic(old(fs.files), fs.history[k], destination, temporary, Content(chunks), limit);
    }
    StagedIsAtomic(old(fs.files), fs.files, destination, temporary, Content(chunks), limit);
    if failure.None? {
      fs.Rename(temporary, destination);
      r := Ok(destination);
    } else if fails(Unlink) {
      r := Err(IoError);
    } else {
      fs.Remove(temporary);
      r := Err(failure.value);
    }
  }

  // ----- What the outcome means -----

  /** Only what fits is copied, and only an upload that does not fit is refused as too large. */
  lemma {:induction false} CopyErrorMeans(fails: Operation -> bool, limit: nat, chunks: seq<Bytes>, index: nat, total: nat)
    requires index <= |chunks| && total <= limit
    ensures var copy, size := CopyError(fails, limit, chunks, index, total), total + |Content(chunks[index..])|;
            && (copy.None? ==> size <= limit)
            && (copy == Some(UploadTooLarge) ==> size > limit)
            && ((forall o :: !fails(o)) ==> copy == if size <= limit then None else Some(UploadTooLarge))
    decreases |chunks| - index
  {
    RestOfContent(chunks, index);
    if index < |chunks| && chunks[index] != [] && total + |chunks[index]| <= limit {
      CopyErrorMeans(fails, limit, chunks, index + 1, total + |chunks[index]|);
    }
  }

  /** Absent I/O failure, an upload succeeds exactly when its length is at most the limit; with failures it
      may succeed only then, and is called too large only when it is. */
  lemma AcceptedIffWithinLimit(fails: Operation -> bool, limit: nat, chunks: seq<Bytes>)
    ensures (forall o :: !fails(o)) ==>
              Outcome(fails, limit, chunks) == if |Content(chunks)| <= limit then None else Some(UploadTooLarge)
    ensures Outcome(fails, limit, chunks).None? ==> |Content(chunks)| <= limit
    ensures Outcome(fails, limit, chunks) == Some(UploadTooLarge) ==> |Content(chunks)| > limit
  {
    CopyErrorMeans(fails, limit, chunks, 0, 0);
    assert chunks[0..] == chunks;
  }

  /** A source that is read in non-empty pieces yields all of them. */
  lemma {:induction false} ContentIsFlatten(chunks: seq<Bytes>)
    requires forall i :: 0 <= i < |chunks| ==> chunks[i] != []
    ensures Content(chunks) == Flatten(chunks)
  {
    if chunks != [] {
      ContentIsFlatten(chunks[1..]);
    }
  }

  /** No state an upload passes through differs from the one before it outside the workspace. */
  lemma UploadStaysInWorkspace(workspace: Path, requested: Bytes, name: Bytes, before: map<Path, Bytes>, now: map<Path, Bytes>,
                               content: Bytes, limit: nat, p: Path)
    requires Paths.Resolved(workspace) && Paths.ResolveWorkspacePath(workspace, requested).Ok?
    requires var destination := Paths.ResolveWorkspacePath(workspace, requested).value;
             Atomic(before, now, destination, TemporaryPath(destination, name), content, limit)
    requires !(workspace < p)
    ensures Lookup(now, p) == Lookup(before, p)
  {
    Paths.ResolutionIsConfined(workspace, requested);
    var destination := Paths.ResolveWorkspacePath(workspace, requested).value;
    var temporary := TemporaryPath(destination, name);
    assert workspace < temporary by {
      assert temporary[..|workspace|] == destination[..|workspace|];
    }
  }
}
