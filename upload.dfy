/**
 * An uploaded file: what the client said about it, the upload error code,
 * and the once-only move to its destination.
 */
module Upload {
  import opened Wrappers
  import opened PhpString

  /** `UPLOAD_ERR_OK`. */
  const ErrOk := 0
  /** `UPLOAD_ERR_NO_FILE`. */
  const ErrNoFile := 4

  /** How a call to `moveTo()` ended: the move, or the exception it throws. */
  datatype Outcome =
    | Moved
    | InvalidUpload   // "Cannot move invalid file upload"
    | AlreadyMoved    // "Uploaded file already moved"
    | MoveFailed      // "Failed moving uploaded file"

  class Upload {
    /** The file's location; null when no file was found at construction. */
    var path: Option<string>
    var size: Option<int>
    const name: Option<string>
    const mediaType: Option<string>
    const error: int
    var moved: bool
    /**
     * The mover (`rename` or `move_uploaded_file` by default): given the current
     * path and the destination, whether the file was moved.
     */
    const move: (string, string) -> bool
    /** The moves the mover was asked to make, in order. */
    ghost var calls: seq<(string, string)>

    /** A path is kept exactly when a file was found; an upload without one reports no file; only a found, ok file is ever moved. */
    ghost predicate Valid()
      reads this
    {
      && (path.None? ==> error == ErrNoFile && size.None?)
      && (moved ==> path.Some? && error == ErrOk)
    }

    /**
     * The constructor: a falsy path or a path where no file exists forces the
     * error to UPLOAD_ERR_NO_FILE; otherwise the path and its size are kept.
     */
    constructor (filePath: string, name: Option<string>, mediaType: Option<string>, error: int,
                 fileExists: bool, fileSize: int, move: (string, string) -> bool)
      ensures Valid()
      ensures Truthy(filePath) && fileExists ==> path == Some(filePath) && size == Some(fileSize) && this.error == error
      ensures !(Truthy(filePath) && fileExists) ==> path.None? && size.None? && this.error == ErrNoFile
      ensures this.name == name && this.mediaType == mediaType && this.move == move
      ensures !moved && calls == []
    {
      if Truthy(filePath) && fileExists {
        path := Some(filePath);
        size := Some(fileSize);
        this.error := error;
      } else {
        path := None;
        size := None;
        this.error := ErrNoFile;
      }
      this.name := name;
      this.mediaType := mediaType;
      this.move := move;
      moved := false;
      calls := [];
    }

    /** `ok()`: the upload reported no error. */
    predicate Ok()
      reads this
    {
      error == ErrOk
    }

    /** `moved()`. */
    function HasMoved(): (r: bool)
      reads this
      requires Valid()
      ensures r ==> Ok() && path.Some?
    {
      moved
    }

    function Size(): (r: Option<int>)
      reads this
      requires Valid()
      ensures r.Some? ==> path.Some?
    {
      size
    }

    function ClientName(): Option<string>
      reads this
    {
      name
    }

    function ClientType(): Option<string>
      reads this
    {
      mediaType
    }

    function Error(): (r: int)
      reads this
      requires Valid()
      ensures path.None? ==> r == ErrNoFile
      ensures r == ErrOk <==> Ok()
    {
      error
    }

    /**
     * `moveTo()`: refused for an upload with an error and for one already
     * moved, without consulting the mover; otherwise the mover is asked once,
     * and only when it succeeds do the path and the moved flag change.
     */
    method MoveTo(destination: string) returns (outcome: Outcome)
      requires Valid()
      modifies this
      ensures Valid()
      ensures !old(Ok()) ==> outcome == InvalidUpload
      ensures old(Ok()) && old(moved) ==> outcome == AlreadyMoved
      ensures old(Ok()) && !old(moved) ==> calls == old(calls) + [(old(path).value, destination)]
      ensures old(Ok()) && !old(moved) ==> outcome == (if move(old(path).value, destination) then Moved else MoveFailed)
      ensures outcome != Moved ==> path == old(path) && moved == old(moved)
      ensures outcome != Moved && !(old(Ok()) && !old(moved)) ==> calls == old(calls)
      ensures outcome == Moved ==> path == Some(destination) && moved
      ensures size == old(size)
    {
      if !Ok() {
        return InvalidUpload;
      }
      if moved {
        return AlreadyMoved;
      }
      calls := calls + [(path.value, destination)];
      if !move(path.value, destination) {
        return MoveFailed;
      }
      path := Some(destination);
      moved := true;
      outcome := Moved;
    }
  }

  // ---------------------------------------------------------------------------
  // Move sequences

  /** A second move after a successful one is refused, and the file stays at the first destination. */
  method MoveTwice(filePath: string, first: string, second: string, mover: (string, string) -> bool)
    returns (once: Outcome, twice: Outcome, finalPath: Option<string>, ghost calls: nat)
    requires Truthy(filePath) && mover(filePath, first)
    ensures once == Moved && twice == AlreadyMoved && finalPath == Some(first) && calls == 1
  {
    var u := new Upload(filePath, Some("test.txt"), Some("text/plain"), ErrOk, true, 0, mover);
    once := u.MoveTo(first);
    twice := u.MoveTo(second);
    finalPath := u.path;
    calls := |u.calls|;
  }

  /** An upload with an error, or without a file, is never moved and the mover is never asked. */
  method MoveInvalid(filePath: string, error: int, fileExists: bool, destination: string, mover: (string, string) -> bool)
    returns (outcome: Outcome, moved: bool, finalPath: Option<string>, ghost calls: nat)
    requires error != ErrOk || !(Truthy(filePath) && fileExists)
    ensures outcome == InvalidUpload && !moved && calls == 0
    ensures finalPath == if Truthy(filePath) && fileExists then Some(filePath) else None
  {
    var u := new Upload(filePath, None, None, error, fileExists, 0, mover);
    outcome := u.MoveTo(destination);
    moved := u.moved;
    finalPath := u.path;
    calls := |u.calls|;
  }

  /** When the mover fails, the upload keeps its path and stays unmoved, and may be moved again. */
  method MoveFails(filePath: string, destination: string, mover: (string, string) -> bool)
    returns (outcome: Outcome, moved: bool, finalPath: Option<string>, ok: bool)
    requires Truthy(filePath) && !mover(filePath, destination)
    ensures outcome == MoveFailed && !moved && finalPath == Some(filePath) && ok
  {
    var u := new Upload(filePath, None, None, ErrOk, true, 0, mover);
    outcome := u.MoveTo(destination);
    moved := u.moved;
    finalPath := u.path;
    ok := u.Ok();
  }
}
