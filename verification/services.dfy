/** The file, folder and stream services, as one abstract filesystem plus a trace.

    A slot never sees the disk directly: it calls `Exists`, `Delete`, `Copy`,
    `Move`, `Save`, `Load` or a listing on a service. Here the disk is a map
    from absolute path to content, and every call is appended to a trace, so
    that the order of calls and their number can be stated. A folder is one
    entry of the map; what it contains is not modelled. */
module Services {
  import opened Results
  import opened Nodes

  datatype Content = TextFile(text: string) | BinaryFile(bytes: seq<bv8>) | Folder

  /** One call made by a slot, in the order it was made. */
  datatype Call =
    | Eval                                          // signaler.Signal("eval", ...)
    | Exists(path: string)
    | Delete(path: string)
    | Copy(source: string, destination: string)
    | Move(source: string, destination: string)
    | Save(path: string)
    | Load(path: string)
    | List(folder: string)
    | ListRecursively(folder: string)
    | ListFolders(folder: string)
    | SaveStream(path: string)
    | Invoke(source: string, destination: string) // the callback handed to utilities/Helpers.cs

  datatype World = World(fs: map<string, Content>, trace: seq<Call>) {
    function Log(c: Call): World {
      this.(trace := trace + [c])
    }
  }

  /** Which service a copy or move goes to: files refuse to overwrite, folders merge on copy. */
  datatype Kind = Files | Folders

  /** The state a slot leaves behind: the world, its call node, and how it ended. */
  datatype Outcome = Outcome(world: World, node: Node, status: Status)

  /** `File.Exists` and `Directory.Exists`: an entry of the other kind does not count. */
  predicate Holds(fs: map<string, Content>, kind: Kind, path: string) {
    path in fs && (fs[path].Folder? <==> kind == Folders)
  }

  /** Nothing, or a file, at the path: never a folder. */
  predicate FreeOrFile(fs: map<string, Content>, path: string) {
    path in fs ==> !fs[path].Folder?
  }

  function ExistsEntry(w: World, kind: Kind, path: string): (World, bool) {
    (w.Log(Exists(path)), Holds(w.fs, kind, path))
  }

  /** Deleting an absent path is a no-op on the filesystem. */
  function DeleteEntry(w: World, path: string): World {
    w.Log(Delete(path)).(fs := w.fs - {path})
  }

  /** A copy refuses a source that is missing or of the other kind. `File.Copy` refuses any
      existing destination, a folder among them; a folder copy merges into an existing folder
      and refuses a file. */
  function CopyEntry(w: World, kind: Kind, source: string, destination: string): (World, Status) {
    var w1 := w.Log(Copy(source, destination));
    if !Holds(w.fs, kind, source) then (w1, Failed(NotFound(source)))
    else if destination in w.fs && (kind == Files || !w.fs[destination].Folder?) then (w1, Failed(Conflict(destination)))
    else (w1.(fs := w.fs[destination := w.fs[source]]), Done)
  }

  /** `File.Move` and `Directory.Move` refuse a source that is missing or of the other kind,
      and any existing destination. */
  function MoveEntry(w: World, kind: Kind, source: string, destination: string): (World, Status) {
    var w1 := w.Log(Move(source, destination));
    if !Holds(w.fs, kind, source) then (w1, Failed(NotFound(source)))
    else if destination in w.fs then (w1, Failed(Conflict(destination)))
    else (w1.(fs := (w.fs - {source})[destination := w.fs[source]]), Done)
  }

  /** Saving replaces whatever was there. */
  function SaveEntry(w: World, path: string, content: Content): World {
    w.Log(Save(path)).(fs := w.fs[path := content])
  }

  /** Loading text: a missing path or a folder is not found; binary content is not decoded here. */
  function LoadText(w: World, path: string): (World, Result<string>) {
    var w1 := w.Log(Load(path));
    if path !in w.fs || w.fs[path].Folder? then (w1, Fail(NotFound(path)))
    else if w.fs[path].BinaryFile? then (w1, Fail(Conversion))
    else (w1, Ok(w.fs[path].text))
  }

  /** The stream service's contract only says that the stream is saved to the path; what it does
      when something is already there is not stated, so both behaviours are modelled. */
  datatype StreamSave = Replace | Refuse

  function SaveStreamEntry(w: World, path: string, data: seq<bv8>, mode: StreamSave): (World, Status) {
    var w1 := w.Log(SaveStream(path));
    if mode == Refuse && path in w.fs then (w1, Failed(Conflict(path)))
    else (w1.(fs := w.fs[path := BinaryFile(data)]), Done)
  }

  predicate IsTransfer(c: Call) {
    c.Copy? || c.Move?
  }

  /** Number of copy or move calls in a trace. */
  function Transfers(t: seq<Call>): nat {
    if t == [] then 0 else Transfers(t[..|t| - 1]) + (if IsTransfer(t[|t| - 1]) then 1 else 0)
  }

  lemma TransfersSnoc(t: seq<Call>, c: Call)
    ensures Transfers(t + [c]) == Transfers(t) + (if IsTransfer(c) then 1 else 0)
  {
    assert (t + [c])[..|t|] == t;
  }

  lemma {:induction false} TransfersAppend(t: seq<Call>, u: seq<Call>)
    ensures Transfers(t + u) == Transfers(t) + Transfers(u)
    decreases |u|
  {
    if u == [] {
      assert t + u == t;
    } else {
      assert (t + u)[..|t + u| - 1] == t + u[..|u| - 1];
      TransfersAppend(t, u[..|u| - 1]);
    }
  }
}
