/**
 One owner-only file, written through a temporary name: which failures leave the new content visible.
*/
module OwnerFile {
  import opened Options
  import opened Crashes

  datatype FileError = NotFound | ConcurrentChange | Failed | Indeterminate

  datatype FileResult = Done | Error(error: FileError) | Killed

  class OwnerOnlyFile<T> {
    const fuse: Fuse
    var content: Option<T>
    var temporary: Option<T>

    constructor (fuse: Fuse)
      ensures this.fuse == fuse && content == None && temporary == None
    {
      this.fuse, content, temporary := fuse, None, None;
    }

    /** Removes a temporary file that a killed process left. */
    method Prepare() returns (r: FileResult)
      modifies this`temporary, fuse
      ensures if old(fuse.Calm(1)) then r.Done? && fuse.Performed(1) else !r.Done?
      ensures r.Done? ==> temporary == None
      ensures r.Done? || r.Killed? || r == Error(Failed)
      ensures old(fuse.faults).Quiet? ==> fuse.faults.Quiet? && !r.Error?
    {
      var s := fuse.Primitive();
      if s.Died? { return Killed; }
      if s.Threw? { return Error(Failed); }
      temporary := None;
      return Done;
    }

    /** The temporary file is created, written and synced; on failure the drop guard removes it. */
    method Stage(bytes: T) returns (r: FileResult)
      modifies this`temporary, fuse
      ensures if old(fuse.Calm(3)) then r.Done? && fuse.Performed(3) else !r.Done?
      ensures r.Done? ==> temporary == Some(bytes)
      ensures r.Done? || r.Killed? || r == Error(Failed)
    {
      r := Prepare();
      if !r.Done? { return; }
      var s := fuse.Primitive();
      if s.Died? { return Killed; }
      if s.Threw? { return Error(Failed); }
      temporary := Some(bytes);
      s := fuse.Primitive();
      if s.Died? { return Killed; }
      if s.Threw? {
        r := DropGuard(Failed);
      }
    }

    /** Best effort: a failure to remove the temporary file is ignored. */
    method DropGuard(error: FileError) returns (r: FileResult)
      modifies this`temporary, fuse
      ensures r == Error(error) || r.Killed?
      ensures old(fuse.fuel) > 0 ==> r == Error(error)
    {
      var s := fuse.Primitive();
      if s.Died? { return Killed; }
      if s.Ok? { temporary := None; }
      return Error(error);
    }

    /** Creates the file by a hard link, never over an existing one. The content becomes visible exactly when the
        link is made, the fourth step; success takes the removal of the temporary name and a sync besides, so after
        `Failed` either content may be there. */
    method Create(bytes: T) returns (r: FileResult)
      modifies this`content, this`temporary, fuse
      ensures content == if old(content).None? && old(fuse.Calm(4)) then Some(bytes) else old(content)
      ensures r.Done? <==> old(content).None? && old(fuse.Calm(6))
      ensures r.Done? ==> temporary == None && fuse.Performed(6)
      ensures r == Error(ConcurrentChange) ==> old(content).Some?
      ensures old(content).Some? && old(fuse.Calm(5)) ==> r == Error(ConcurrentChange)
      ensures r != Error(NotFound) && r != Error(Indeterminate)
    {
      r := Stage(bytes);
      if !r.Done? { return; }
      var s := fuse.Primitive();
      if s.Died? { return Killed; }
      if s.Threw? {
        r := DropGuard(Failed);
        return;
      }
      if content.Some? {
        r := DropGuard(ConcurrentChange);
        return;
      }
      content := temporary;
      s := fuse.Primitive();
      if s.Died? { return Killed; }
      if s.Threw? {
        r := DropGuard(Failed);
        return;
      }
      temporary := None;
      s := fuse.Primitive();
      if s.Died? { return Killed; }
      return if s.Threw? then Error(Failed) else Done;
    }

    /** Replaces the file by a rename, the fourth step. `Failed` means the old content is still there,
        `Indeterminate` that the new one is already visible. */
    method Replace(bytes: T) returns (r: FileResult)
      modifies this`content, this`temporary, fuse
      ensures content == if old(fuse.Calm(4)) then Some(bytes) else old(content)
      ensures if old(fuse.Calm(5)) then r.Done? && fuse.Performed(5) else !r.Done?
      ensures r == Error(Indeterminate) ==> old(fuse.Calm(4))
      ensures r.Error? && r.error != Indeterminate ==> !old(fuse.Calm(4))
      ensures r != Error(NotFound) && r != Error(ConcurrentChange)
    {
      r := Stage(bytes);
      if !r.Done? { return; }
      var s := fuse.Primitive();
      if s.Died? { return Killed; }
      if s.Threw? {
        r := DropGuard(Failed);
        return;
      }
      content, temporary := temporary, None;
      s := fuse.Primitive();
      if s.Died? { return Killed; }
      return if s.Threw? then Error(Indeterminate) else Done;
    }

    method Read() returns (r: FileResult, bytes: Option<T>)
      modifies this`temporary, fuse
      ensures r.Done? <==> content.Some? && old(fuse.Calm(2))
      ensures bytes == if r.Done? then content else None
      ensures r == Error(NotFound) <==> content.None? && old(fuse.Calm(2))
      ensures old(fuse.Calm(2)) ==> fuse.Performed(2)
      ensures r != Error(ConcurrentChange) && r != Error(Indeterminate)
      ensures old(fuse.faults).Quiet? ==> fuse.faults.Quiet? && r != Error(Failed)
    {
      r := Prepare();
      if !r.Done? { return r, None; }
      var s := fuse.Primitive();
      if s.Died? { return Killed, None; }
      if s.Threw? { return Error(Failed), None; }
      return if content.None? then Error(NotFound) else Done, content;
    }
  }
}
