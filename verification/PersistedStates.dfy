/** A value cached in memory and kept in a file. */
module PersistedStates {
  import opened Wrappers

  /** Garbage is what does not parse, such as a file whose writing broke off. */
  datatype FileContents<+T> = Absent | Garbage | Holds(value: T)

  datatype WriteOutcome = Succeeds | CannotOpen | BreaksOff

  function Parsed<T>(file: FileContents<T>, default: T): T {
    if file.Holds? then file.value else default
  }

  function Overwritten<T>(file: FileContents<T>, value: T, how: WriteOutcome): FileContents<T> {
    match how
    case Succeeds => Holds(value)
    case CannotOpen => file
    case BreaksOff => Garbage
  }

  class StateFile<T> {
    var contents: FileContents<T>

    constructor ()
      ensures contents == Absent
    {
      contents := Absent;
    }
  }

  class PersistedStateContainer<T> {
    const path: StateFile<T>
    const default: T
    var state: Option<T>

    constructor (path: StateFile<T>, default: T)
      ensures state == None && this.path == path && this.default == default
    {
      this.path, this.default, state := path, default, None;
    }

    /** What a reader of the container sees. */
    ghost function Current(): T
      reads this, path
    {
      state.GetOr(Parsed(path.contents, default))
    }

    method LoadOrGet() returns (r: T)
      modifies this`state
      ensures r == old(Current()) && Current() == r && state == Some(r)
    {
      if state.Some? {
        return state.value;
      }
      r := if path.contents.Holds? then path.contents.value else default;
      state := Some(r);
    }

    /** The cached value changes even when the file cannot be written. */
    method Save(value: T, how: WriteOutcome) returns (ok: bool)
      modifies this`state, path
      ensures state == Some(value) && Current() == value
      ensures path.contents == Overwritten(old(path.contents), value, how)
      ensures ok <==> how.Succeeds?
      ensures ok ==> Parsed(path.contents, default) == Current()
    {
      state := Some(value);
      if how.CannotOpen? {
        return false;
      }
      path.contents := Garbage; // opened and truncated
      if how.BreaksOff? {
        return false;
      }
      path.contents := Holds(value);
      return true;
    }
  }
}
