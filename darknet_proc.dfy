/**
 * `DarknetProc` of `streamproc.py`: the process-wide owner of the native
 * detector handle. Only its release is modelled; the handle is an opaque
 * token and the native library is represented by a count of the frees it
 * has been asked to perform.
 */
module Detector {
  import opened Wrappers

  /** An opaque native detector handle. */
  type Handle = nat

  class DarknetProc {
    /** `self.det`: the live handle, or `None` once released. */
    var det: Option<Handle>
    /** How many times `free_detector_demo` has been called on this object's handle. */
    var frees: nat

    /** Each handle that was created is either still live or has been freed exactly once. */
    ghost predicate Valid()
      reads this
    {
      frees + (if det.Some? then 1 else 0) == 1
    }

    /** `__init__`: `make_detector_demo` returned handle `h`. */
    constructor (h: Handle)
      ensures Valid() && det == Some(h) && frees == 0
    {
      det := Some(h);
      frees := 0;
    }

    /** `destroy`: frees the handle only when it is still held, then forgets it. */
    method Destroy()
      requires Valid()
      modifies this
      ensures Valid()
      ensures det.None?
      ensures frees == old(frees) + (if old(det).Some? then 1 else 0)
      ensures frees <= 1
    {
      if det.Some? {
        frees := frees + 1;
        det := None;
      }
    }
  }

  /**
   * `destroy` is registered with `atexit` and also called by `__del__`:
   * both run at shutdown, and the handle is freed once.
   */
  method ShutdownFreesOnce(h: Handle) returns (frees: nat, det: Option<Handle>)
    ensures frees == 1 && det.None?
  {
    var d := new DarknetProc(h);
    d.Destroy();
    d.Destroy();
    frees, det := d.frees, d.det;
  }
}
