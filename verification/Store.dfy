/**
  The image store of the server as functions on its whole state: the records, the active
  layers, and the daemon the records are about.
 */
module Store {
  import opened Options
  import opened Names
  import opened Forest
  import opened BlockGraph

  datatype State = State(images: Images, active: map<string, string>, daemon: Daemon)

  datatype Reason =
    | NoDirectory
    | BackendRefused
    | ImageNotFound
    | ActiveLayerNotFound
    | BackingImageNotFound
    | FileNotRemoved
    | DirectoryNotCleaned

  /** `Panicked` is a Go run-time panic: a slice out of range or a nil dereference. */
  datatype Reply = Ok | Failed(reason: Reason) | Panicked

  datatype Result = Result(state: State, reply: Reply)

  const EMPTY := State(map[], map[], Daemon(map[], map[]))

  function Record(s: State, id: string, img: Image, volume: string, d: Daemon): State {
    State(Insert(s.images, id, img), s.active[volume := id], d)
  }

  /** The record of a new overlay, named after its own ID. */
  function NewLayer(m: Images, id: string, backing: string, file: string): Image
    requires QsdIdDefined(id) && backing in m
  {
    Image(GenerateQsdId(id), backing, file, 0, id, Uint32(m[backing].depth + 1))
  }

  ghost function CreateVolume(s: State, id: string, source: string, f: Faults): Result {
    if f.mkdir then Result(s, Failed(NoDirectory))
    else if !QsdIdDefined(id) then Result(s, Panicked)
    else
      var q, file := GenerateQsdId(id), VolumePath(id);
      if source == "" then
        var a := CreateDisk(s.daemon, file, q, f);
        if !a.ok then Result(s.(daemon := a.daemon), Failed(BackendRefused))
        else Result(State(s.images[id := Image(q, "", file, 0, id, 0)], s.active[id := id], a.daemon), Ok)
      else if source !in s.images then Result(s, Failed(ImageNotFound))
      else
        var b := s.images[source];
        var a := CreateWithBackingNode(s.daemon, b.qsdId, q, b.file, file, f);
        if !a.ok then Result(s.(daemon := a.daemon), Failed(BackendRefused))
        else Result(Record(s, id, NewLayer(s.images, id, source, file), id, a.daemon), Ok)
  }

  ghost function CreateSnapshot(s: State, id: string, source: string, f: Faults): Result {
    if source !in s.active then Result(s, Failed(ActiveLayerNotFound))
    else if s.active[source] !in s.images then Result(s, Failed(ImageNotFound))
    else if f.stat then Result(s, Failed(NoDirectory))
    else if !QsdIdDefined(id) then Result(s, Panicked)
    else
      var layer := s.active[source];
      var i := s.images[layer];
      var q := GenerateQsdId(id);
      var file := SnapshotPath(source, q);
      var a := if i.refCount < 1 then CreateAndInstall(s.daemon, i.qsdId, q, i.file, file, f)
               else CreateWithBackingNode(s.daemon, i.qsdId, q, i.file, file, f);
      if !a.ok then Result(s.(daemon := a.daemon), Failed(BackendRefused))
      else Result(Record(s, id, NewLayer(s.images, id, layer, file), source, a.daemon), Ok)
  }

  ghost function DeleteImage(s: State, id: string, f: Faults): Result {
    if id !in s.images then Result(s, Failed(ImageNotFound))
    else
      var i := s.images[id];
      var a := DeleteNode(s.daemon, i.qsdId, f);
      if !a.ok then Result(s, Failed(BackendRefused))
      else if i.file !in a.daemon.files || i.file in f.unlink then
        Result(s.(daemon := a.daemon), Failed(FileNotRemoved))
      else
        var d := a.daemon.(files := a.daemon.files - {i.file});
        if i.backing != "" && i.backing !in s.images then
          Result(s.(daemon := d), Failed(BackingImageNotFound))
        else
          Result(s.(images := Remove(s.images, id), daemon := d), Ok)
  }

  /** deleteNodeWithZeroReference: delete unnamed images without children up the chain. */
  ghost function CleanUp(s: State, id: string, f: Faults): Result
    decreases |s.images|
  {
    if id !in s.images || s.images[id].refCount > 0 || s.images[id].volumeRef != "" then Result(s, Ok)
    else
      var r := DeleteImage(s, id, f);
      if r.reply != Ok then r
      else if s.images[id].backing == "" then r
      else
        assert r.state.images.Keys == s.images.Keys - {id};
        CleanUp(r.state, s.images[id].backing, f)
  }

  function Unname(m: Images, id: string): Images
    requires id in m
  {
    m[id := m[id].(volumeRef := "")]
  }

  /** The common end of DeleteVolume; `base` is the record whose backing image is cleaned, nil when absent. */
  ghost function FinishDelete(s: State, id: string, base: Option<Image>, f: Faults): Result {
    var s1 := s.(active := s.active - {id});
    if f.rmdir then Result(s1, Failed(DirectoryNotCleaned))
    else if base == None then Result(s1, Panicked)
    else CleanUp(s1, base.value.backing, f)
  }

  ghost function DeleteVolume(s: State, id: string, f: Faults): Result {
    if id !in s.active then Result(s, Failed(ActiveLayerNotFound))
    else if s.active[id] !in s.images then Result(s, Failed(ImageNotFound))
    else
      var layer := s.active[id];
      if s.images[layer].refCount < 1 && layer == id then
        var r := DeleteImage(s, id, f);
        if r.reply != Ok then r else FinishDelete(r.state, id, Some(s.images[id]), f)
      else if id in s.images then
        FinishDelete(s.(images := Unname(s.images, id)), id, Some(s.images[id]), f)
      else
        FinishDelete(s, id, None, f)
  }

  ghost predicate IsActiveLayer(s: State, id: string, source: string) {
    source in s.active && s.active[source] == id
  }

  ghost function DeleteSnapshot(s: State, id: string, source: string, f: Faults): Result {
    if id !in s.images then Result(s, Failed(ImageNotFound))
    else
      var i := s.images[id];
      if i.refCount < 1 && !IsActiveLayer(s, id, source) then
        var r := DeleteImage(s, id, f);
        if r.reply != Ok then r else CleanUp(r.state, i.backing, f)
      else
        CleanUp(s.(images := Unname(s.images, id)), i.backing, f)
  }

  /** The server's state-changing calls. */
  datatype Call =
    | NewVolume(id: string, source: string)
    | NewSnapshot(id: string, source: string)
    | DropVolume(id: string)
    | DropSnapshot(id: string, source: string)

  ghost function Step(s: State, c: Call, f: Faults): Result {
    match c
    case NewVolume(id, source) => CreateVolume(s, id, source, f)
    case NewSnapshot(id, source) => CreateSnapshot(s, id, source, f)
    case DropVolume(id) => DeleteVolume(s, id, f)
    case DropSnapshot(id, source) => DeleteSnapshot(s, id, source, f)
  }
}
